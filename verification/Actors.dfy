/** Who makes a request. */
module Actors {
  import opened Prelude

  datatype Actor = Actor(userId: Uint, username: string, role: string, team: string)

  predicate IsPkiStaff(actor: Actor) {
    actor.role == "admin" || actor.role == "pki_operator"
  }
}
