# Orders and users back end: a Dafny model of the order lifecycle

The modelled system is the REST back end of a small shop. It has a `users` resource and an
`orders` resource, both stored in MongoDB through Mongoose. This project models the request
handlers of both controllers, the `Order` schema and its `ticket` auto-increment counter.
The database is modelled as an in-memory store, the class `Store.Store`. It holds:

- the `orders` collection and the `users` collection, each a sequence of documents in natural
  (insertion) order;
- `ticketNums`, the last value the ticket counter issued.

Every Mongoose call becomes a lookup function (`findById`, `findOne({ title })`) or a store
method (`Order.create`, `save`, `deleteOne`). Requests are handled one at a time.

Modules:

- `Wrappers`: the `Option` type.
- `Http`: request-body values and replies.
  - A string body field is `Option<string>`. JavaScript truthiness makes a missing field, a
    `null` and `""` all count as absent.
  - `completed` is a JSON value, so the check `typeof completed !== "boolean"` can be stated.
  - A reply is a status code plus a message tag.
  - A list endpoint gives records, a refusal, or an exception that escapes to the process-wide
    error handler.
- `Models`: the `Order` and `User` documents, the schema's required and default rules for
  orders, and the invariants of the order collection:
  - ids are non-empty and unique;
  - titles are unique;
  - every order passes the schema;
  - tickets lie between 100 and the counter value and increase in creation order.
- `Store`: the lookups, the `Store` class and its persistence methods.
- `OrdersController`: `getAllOrders` as a function of the two collections. `createNewOrder`,
  `updateOrder` and `deleteOrder` are methods that change the store. Each method keeps
  `Valid()` and states its whole new state for each branch.
- `UsersController`: `getAllUsers` as a password-free projection, and the three empty stubs.
- `Scenarios`: request sequences against a fresh store that show the contracts at work on
  concrete inputs.

Where the handlers do something other than their names and messages suggest, the model follows the code:

- `deleteOrder` looks the id up among users.
- The user create, update and delete handlers are empty. So there is no username uniqueness
  check and no "user has orders" block on deletion.

The user fields (`username`, `password`, `roles`, `active`) are assumed, because
`models/User.js` is not part of this model.

## Model

| member | source | states |
|---|---|---|
| `Models.Build` | models/Order.js:6-22 | `Order.create` fails validation exactly when `user`, `title` or `text` is empty. Otherwise the document carries the given fields. `completed` is `false` when not supplied and the supplied value otherwise. |
| `Models.SchemaAllowsDuplicateTitle` | models/Order.js:11-14 | The schema has no unique index on `title`. `Order.create` (`Build`) accepts required fields whose title a stored order already holds, and the insert breaks title uniqueness, so uniqueness rests on the controllers' pre-checks. |
| `Store.OrderById` | controllers/ordersController.js:64 | `Order.findById`: the position it finds holds that id. It finds nothing exactly when no order has the id. |
| `Store.OrderByTitle` | controllers/ordersController.js:40 | `Order.findOne({ title })`: the first order with that title. It finds nothing exactly when no order has the title. |
| `Store.UserById` | controllers/ordersController.js:22 | `User.findById`: the position it finds holds that id. It finds nothing exactly when no user has the id. |
| `Store.RemoveOrderKeepsValid` | models/Order.js:31-35 | Removing an order keeps the collection invariants for the same counter value. Titles and ids stay unique and tickets keep increasing. The counter is untouched, so a deleted ticket is never issued again. |
| `Store.RemoveUserKeepsUnique` | controllers/ordersController.js:102 | Removing a user keeps user ids unique. No remaining user has the removed id. |
| `Store.Store.constructor` | models/Order.js:31-35 | A new store satisfies the invariants, has no orders, and its counter value is 99, so the first ticket issued is 100. |
| `Store.Store.Create` | models/Order.js:19-35 | `Order.create` builds the document with its defaults. On success it appends the document, advances the counter by one and uses the new counter value as the ticket. On a validation failure nothing changes. |
| `Store.Store.Save` | controllers/ordersController.js:76-81 | `order.save()` rewrites the one document in place. Users and the counter are unchanged. |
| `Store.Store.DeleteOrderAt` | controllers/ordersController.js:102 | `deleteOne` on an order removes exactly that position. The other orders keep their order. |
| `Store.Store.DeleteUserAt` | controllers/ordersController.js:96-102 | `deleteOne` on a user removes exactly that position. Orders and the counter are unchanged. |
| `OrdersController.JoinUsernames` | controllers/ordersController.js:20-25 | It fails exactly when some order's user id matches no user. Otherwise it gives one record per order, in order: the order itself plus a username of a user with that id. |
| `OrdersController.GetAllOrders` | controllers/ordersController.js:12-28 | 400 "No orders found" exactly when there are no orders. It throws exactly when some order's user is missing, because line 23 has no null check. Otherwise it gives one record per stored order, each the order plus its user's username. It changes no state. |
| `OrdersController.JoinUsernamesGuarded` | controllers/ordersController.js:23 | The join with `user?.username`. Each order appears once, in order. A record has a username exactly when the order's user exists, and it is that user's. |
| `OrdersController.GetAllOrdersGuarded` | controllers/ordersController.js:12-28 | The guarded listing never throws. It refuses with 400 exactly when there are no orders. Otherwise it lists every order, in order, and a record has a username exactly when the order's user exists, that user's username. |
| `OrdersController.JoinsAgree` | controllers/ordersController.js:20-25 | When every order's user exists, the guarded join and the original join give the same list. |
| `OrdersController.GuardChangesOnlyThrows` | controllers/ordersController.js:12-28 | On every input where the original handler does not throw, the guarded and original handlers give the same reply. |
| `OrdersController.CreateNewOrder` | controllers/ordersController.js:33-52 | 400 with the store unchanged when `user`, `title` or `text` is falsy. 409 with the store unchanged when any order holds the title. Otherwise 201, and exactly one order is appended: the given fields, `completed = false`, ticket = counter + 1. The counter advances, users are unchanged, and the invariants hold afterwards. |
| `OrdersController.CreateKeepsValid` | controllers/ordersController.js:40-48 | Appending an order with a fresh id, an untaken title and the counter's next value keeps the invariants for the advanced counter. |
| `OrdersController.DuplicateCheckExact` | controllers/ordersController.js:70-74 | When titles are unique, the check "the `findOne` hit has a different id" holds exactly when a different order holds the title. |
| `OrdersController.OwnTitleNoConflict` | controllers/ordersController.js:70-74 | Keeping an order's own title, or taking a title no order holds, never holds a conflict. |
| `OrdersController.ReplaceKeepsValid` | controllers/ordersController.js:76-81 | Replacing the four fields of one order keeps the invariants when the new fields are non-empty and no other order holds the new title. |
| `OrdersController.UpdateOrder` | controllers/ordersController.js:57-84 | 400 with the store unchanged when a field is falsy or `completed` is not a boolean. 400 when no order has the id. 409 only when a different order holds the new title. Otherwise 200 with the new title, and exactly `user`, `title`, `text` and `completed` of that order change. Its id, its ticket, every other order, the users and the counter stay the same. |
| `OrdersController.DeleteOrder` | controllers/ordersController.js:89-107 | As written. 400 when `id` is falsy. 400 when no user has the id, because the lookup is in the user collection. Otherwise 200, and that user record is removed. The orders and the counter are never changed. |
| `OrdersController.DeleteOrderFixed` | controllers/ordersController.js:89-107 | Corrected. 400 when `id` is falsy or no order has it. Otherwise 200, and exactly that order is removed. Users and the counter are unchanged and the invariants hold. |
| `OrdersController.RemoveOrderDropsId` | controllers/ordersController.js:102 | After the removal, no order has the removed id. |
| `UsersController.Project` | controllers/usersController.js:17 | `select("-password")`: one record per user, in order, with id, username, roles and active kept. The record type has no password field. |
| `UsersController.GetAllUsers` | controllers/usersController.js:15-25 | 400 "No users found" exactly when there are no users. Otherwise one password-free record per user with every other field kept. It never throws and changes nothing. |
| `UsersController.CreateNewUser` | controllers/usersController.js:30 | Empty handler. It sends no reply and, having no `modifies` clause, cannot change the store. |
| `UsersController.UpdateUser` | controllers/usersController.js:35 | Empty handler. It sends no reply and changes nothing. |
| `UsersController.DeleteUser` | controllers/usersController.js:40 | Empty handler. It sends no reply and changes nothing. |
| `Scenarios.TicketsFromStart` | models/Order.js:31-35 | From a fresh store: title T1 gets ticket 100, a second T1 is refused with 409, and T2 gets ticket 101. |
| `Scenarios.DeletionKeepsTicketUsed` | models/Order.js:31-35 | After order 100 is deleted with the corrected delete, the next order gets ticket 101, not 100. |
| `Scenarios.UpdateSelfTitle` | controllers/ordersController.js:70-74 | Updating an order to its own title succeeds. Updating it to another order's title gives 409. |
| `Scenarios.UpdateRejectsLooseFields` | controllers/ordersController.js:60-62 | `completed` sent as the string "true" gives 400, and so does an empty title. |
| `Scenarios.DeleteOrderFindsUsers` | controllers/ordersController.js:96 | Deleting by an order's own id gives 400 "Order not found" and the order stays. Deleting by its user's id removes the user and the order still stays. |
| `Scenarios.DeleteOrderFixedRemovesOrder` | controllers/ordersController.js:89-107 | The corrected handler removes the order that the id names and keeps the user. |
| `Scenarios.DanglingUserThrows` | controllers/ordersController.js:23 | An order created for a user id that matches no user is accepted with 201. The listing that follows throws, and the guarded listing returns the order without a username. |

## Findings

| source | as written | input that shows it | evidently intended | confidence | as-written member | corrected member |
|---|---|---|---|---|---|---|
| controllers/ordersController.js:96 | `deleteOrder` looks the id up with `User.findById` and deletes what it finds | one user `u1` and one order `o1`: `DELETE /orders {id: "o1"}` gives 400 "Order not found" and keeps the order. `{id: "u1"}` deletes the user. | look the id up in the order collection and delete that order | high; not executed | `OrdersController.DeleteOrder`, `Scenarios.DeleteOrderFindsUsers` | `OrdersController.DeleteOrderFixed` |
| controllers/ordersController.js:22-23 | `user.username` is read with no null check after `User.findById` | an order whose `user` matches no user (`createNewOrder` never checks the user exists, and the `deleteOrder` above removes users): `GET /orders` throws instead of listing | `user?.username`, listing the order without a username | medium; not executed | `OrdersController.GetAllOrders`, `Scenarios.DanglingUserThrows` | `OrdersController.GetAllOrdersGuarded` |

## Left out

- HTTP wiring is not modelled: Express routing, the CORS and cookie middleware, static files, the 404 fallback, `listen` and the process-wide error handler. An exception is only the `Thrown` outcome.
- Mongoose casts are not modelled. An id that is not a valid ObjectId makes `findById` throw; the model treats ids as opaque strings that simply may match nothing. A number or boolean sent for a string field is cast by Mongoose; the model takes string fields as strings.
- Ids of new documents are not generated. The ObjectId a driver generates for a new order is a parameter of `CreateNewOrder`. Its `requires` that the id is non-empty and that no order has it stands for what the driver guarantees of an ObjectId.
- The "Invalid data received" branch of `createNewOrder` (controllers/ordersController.js:49-51) is not modelled. `Order.create` cannot return nothing without throwing once the controller's checks have passed.
- Concurrency is not modelled: the `Promise.all` fan-out of `getAllOrders`, and check-then-act races between concurrent requests. Requests are sequential.
- The counter's lazy creation is not modelled. It is folded into a start value of 99, which gives the same tickets.
- Not modelled: timestamps (`createdAt`, `updatedAt`, a clock), `lean()`/`exec()`, the `__v` field, bcrypt (imported, unused), and reply text beyond a status code and a message tag. This includes the `Order ${result.title} with ID ${result._id} deleted` string.
- OrdersController.UpdateOrder: models the self-exclusion check (controllers/ordersController.js:72) only for the canonical lower-case hex spelling of an id. In the source, `findById` casts the body id to an ObjectId, so another spelling of a valid id (upper-case hex, say) still finds the order. Line 72 then compares `duplicate._id.toString()` with the raw body id, so an update keeping the order's own title sent that way answers 409 "Duplicate order". The model compares ids as exact strings in both places and answers 400 "Order not found" instead.
- OrdersController.GetAllOrders: gives each record the username of some user with the order's user id, not the first one `findById` returns. The two are the same because the store keeps user ids unique.
- OrdersController.DeleteOrder: keeps user ids unique but nothing else about users. The as-written handler can leave orders whose user is gone; the second finding shows the result.
