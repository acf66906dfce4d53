/**
 * UserRepository: the lookup the booking service uses.
 */
module UserRepository {
  import opened Wrappers
  import opened ReservationSystemModels
  import opened Store

  /** `GetUserById`. */
  function GetUserById(users: seq<User>, id: int): (r: Option<User>)
    ensures r.Some? <==> HasId(users, (u: User) => u.id, id)
    ensures r.Some? ==> r.value in users && r.value.id == id
  {
    FindById(users, (u: User) => u.id, id)
  }
}
