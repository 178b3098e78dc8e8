/** The handlers of the `/users` resource: a password-free listing and three empty stubs. */
module UsersController {
  import opened Wrappers
  import opened Http
  import opened Models
  import opened Store

  /** A user record as `select("-password")` returns it: the type has no password field. */
  datatype PublicUser = PublicUser(id: Id, username: string, roles: seq<string>, active: bool)

  function WithoutPassword(u: User): (r: PublicUser) {
    PublicUser(u.id, u.username, u.roles, u.active)
  }

  /** The projection applied to each user, in collection order. */
  function Project(users: seq<User>): (r: seq<PublicUser>)
    ensures |r| == |users|
    ensures forall i :: 0 <= i < |users| ==>
              r[i].id == users[i].id && r[i].username == users[i].username
              && r[i].roles == users[i].roles && r[i].active == users[i].active
  {
    if |users| == 0 then []
    else
      var rest := Project(users[1..]);
      var r := [WithoutPassword(users[0])] + rest;
      assert forall i :: 1 <= i < |users| ==> users[i] == users[1..][i - 1] && r[i] == rest[i - 1];
      r
  }

  /** GET /users: 400 on an empty collection, otherwise one password-free record per user
      with every other field kept. Reading changes nothing. */
  function GetAllUsers(users: seq<User>): (r: Listing<PublicUser>)
    ensures !r.Thrown?
    ensures r.Refused? <==> |users| == 0
    ensures r.Refused? ==> r.reply == Response(BadRequest, NoUsersFound)
    ensures r.Records? ==> |r.records| == |users|
    ensures r.Records? ==> forall i :: 0 <= i < |users| ==>
              r.records[i].id == users[i].id && r.records[i].username == users[i].username
              && r.records[i].roles == users[i].roles && r.records[i].active == users[i].active
  {
    if |users| == 0 then Refused(Response(BadRequest, NoUsersFound))
    else Records(Project(users))
  }

  /** POST, PATCH and DELETE /users have empty bodies: none may change the store (they have
      no `modifies` clause) and none sends a reply. */
  method CreateNewUser(db: Store) returns (reply: Option<Response>)
    ensures reply.None?
  {
    reply := None;
  }

  method UpdateUser(db: Store) returns (reply: Option<Response>)
    ensures reply.None?
  {
    reply := None;
  }

  method DeleteUser(db: Store) returns (reply: Option<Response>)
    ensures reply.None?
  {
    reply := None;
  }
}
