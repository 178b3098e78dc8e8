/** The document database as the controllers see it: the `orders` and `users` collections in
    their natural (insertion) order and the `ticketNums` counter of the ticket plugin. Each
    Mongoose call the controllers make is a lookup function or a method of `Store`. */
module Store {
  import opened Wrappers
  import opened Models

  /** The first position whose element satisfies `p`: what `findOne`/`findById` return. */
  function FirstIndex<T>(s: seq<T>, p: T -> bool): (r: Option<nat>)
    ensures r.Some? ==> r.value < |s| && p(s[r.value])
    ensures r.Some? ==> forall j :: 0 <= j < r.value ==> !p(s[j])
    ensures r.None? <==> forall j :: 0 <= j < |s| ==> !p(s[j])
  {
    if |s| == 0 then None
    else if p(s[0]) then Some(0)
    else
      match FirstIndex(s[1..], p)
      case None =>
        assert forall j :: 1 <= j < |s| ==> s[j] == s[1..][j - 1];
        None
      case Some(k) =>
        assert forall j :: 1 <= j < k + 1 ==> s[j] == s[1..][j - 1];
        Some(k + 1)
  }

  /** `Order.findById(id)` */
  function OrderById(orders: seq<Order>, id: Id): (r: Option<nat>)
    ensures r.Some? ==> r.value < |orders| && orders[r.value].id == id
    ensures r.None? <==> !HasOrder(orders, id)
  {
    FirstIndex(orders, (o: Order) => o.id == id)
  }

  /** `Order.findOne({ title })` */
  function OrderByTitle(orders: seq<Order>, title: string): (r: Option<nat>)
    ensures r.Some? ==> r.value < |orders| && orders[r.value].title == title
    ensures r.Some? ==> forall j :: 0 <= j < r.value ==> orders[j].title != title
    ensures r.None? <==> !TitleTaken(orders, title)
  {
    FirstIndex(orders, (o: Order) => o.title == title)
  }

  /** `User.findById(id)` */
  function UserById(users: seq<User>, id: Id): (r: Option<nat>)
    ensures r.Some? ==> r.value < |users| && users[r.value].id == id
    ensures r.None? <==> !HasUser(users, id)
  {
    FirstIndex(users, (u: User) => u.id == id)
  }

  /** `s` with the element at `k` taken out, the rest in order: what `deleteOne` leaves. */
  function RemoveAt<T>(s: seq<T>, k: nat): (r: seq<T>)
    requires k < |s|
    ensures |r| == |s| - 1
    ensures forall j :: 0 <= j < k ==> r[j] == s[j]
    ensures forall j :: k <= j < |r| ==> r[j] == s[j + 1]
  {
    s[..k] + s[k + 1..]
  }

  /** Removing one order keeps every invariant of the collection. */
  lemma RemoveOrderKeepsValid(orders: seq<Order>, last: int, k: nat)
    requires OrdersValid(orders, last) && k < |orders|
    ensures OrdersValid(RemoveAt(orders, k), last)
  {
  }

  /** Removing one user keeps user ids unique, and no remaining user has the removed id. */
  lemma RemoveUserKeepsUnique(users: seq<User>, k: nat)
    requires UserIdsUnique(users) && k < |users|
    ensures UserIdsUnique(RemoveAt(users, k))
    ensures !HasUser(RemoveAt(users, k), users[k].id)
  {
  }

  class Store {
    var orders: seq<Order>
    var users: seq<User>
    /** The last value the `ticketNums` counter issued; StartSeq - 1 before the first order. */
    var ticketNums: int

    ghost predicate Valid()
      reads this
    {
      OrdersValid(orders, ticketNums) && UserIdsUnique(users)
    }

    /** An empty order collection over an existing user collection; the counter is not yet
        created, which behaves as a counter whose next value is StartSeq. */
    constructor (users0: seq<User>)
      requires UserIdsUnique(users0)
      ensures Valid()
      ensures orders == [] && users == users0 && ticketNums == StartSeq - 1
    {
      orders := [];
      users := users0;
      ticketNums := StartSeq - 1;
    }

    /** `Order.create(fields)`: validate, draw the counter's next value as `ticket`, insert. */
    method Create(id: Id, f: OrderFields) returns (r: Option<Order>)
      modifies this
      ensures r == Build(id, f, old(ticketNums) + 1)
      ensures r.Some? ==> orders == old(orders) + [r.value] && ticketNums == old(ticketNums) + 1
      ensures r.None? ==> orders == old(orders) && ticketNums == old(ticketNums)
      ensures users == old(users)
    {
      r := Build(id, f, ticketNums + 1);
      if r.Some? {
        ticketNums := ticketNums + 1;
        orders := orders + [r.value];
      }
    }

    /** `order.save()` on the document found at position `k`. */
    method Save(k: nat, o: Order)
      requires k < |orders|
      modifies this
      ensures orders == old(orders)[k := o]
      ensures users == old(users) && ticketNums == old(ticketNums)
    {
      orders := orders[k := o];
    }

    /** `deleteOne()` on the order document at position `k`. */
    method DeleteOrderAt(k: nat)
      requires k < |orders|
      modifies this
      ensures orders == RemoveAt(old(orders), k)
      ensures users == old(users) && ticketNums == old(ticketNums)
    {
      orders := RemoveAt(orders, k);
    }

    /** `deleteOne()` on the user document at position `k`. */
    method DeleteUserAt(k: nat)
      requires k < |users|
      modifies this
      ensures users == RemoveAt(old(users), k)
      ensures orders == old(orders) && ticketNums == old(ticketNums)
    {
      users := RemoveAt(users, k);
    }
  }
}
