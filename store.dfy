/** The database behind the services: one user collection and one task
    collection, each a map from document id to document. */
module Db {
  import opened Domain

  class Store {
    var users: map<Id, User>
    var tasks: map<Id, Task>
    /** Every id handed out so far is below `nextId`. */
    var nextId: nat

    ghost predicate Valid()
      reads this
    {
      && (forall k :: k in users ==> k < nextId)
      && (forall k :: k in tasks ==> k < nextId)
    }

    constructor ()
      ensures Valid()
      ensures users == map[] && tasks == map[] && nextId == 0
    {
      users := map[];
      tasks := map[];
      nextId := 0;
    }

    /** A fresh document id, used by no user and no task. */
    method NewId() returns (id: Id)
      requires Valid()
      modifies this`nextId
      ensures Valid()
      ensures id == old(nextId) && nextId == id + 1
      ensures id !in users && id !in tasks
    {
      id := nextId;
      nextId := nextId + 1;
    }
  }
}
