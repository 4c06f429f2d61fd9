/** The records of the to-do backend, its error taxonomy and the small
    value types every service shares. */
module Domain {

  /** Document identifiers. The source mixes ObjectIds and their string
      forms; the model uses one type compared with plain equality. */
  type Id = nat

  const AdminRole: string := "admin"
  const UserRole: string := "user"

  datatype Option<+T> = None | Some(value: T)

  /** The five error classes the services throw, each with its message. */
  datatype Error =
    | NotFound(message: string)
    | Authorization(message: string)
    | Validation(message: string)
    | Conflict(message: string)
    | Authentication(message: string)

  datatype Result<+T> = Ok(value: T) | Err(error: Error)

  /** A user document; `password` is the stored hash. */
  datatype User = User(
    name: string,
    email: string,
    password: string,
    role: string,
    isActive: bool,
    createdAt: int)

  /** A task document. */
  datatype Task = Task(
    title: string,
    description: string,
    status: string,
    priority: string,
    owner: Id,
    assignedTo: Option<Id>,
    dueDate: Option<int>,
    createdAt: int)

  /** A query-string or body value counts as given when it is present and
      not the empty string (JavaScript truthiness of a string). */
  predicate Supplied(v: Option<string>)
  {
    v.Some? && v.value != ""
  }

  function UserCreatedAt(u: User): int { u.createdAt }

  function TaskCreatedAt(t: Task): int { t.createdAt }

  /** What `protect` followed by `authorize('admin')` establishes about the
      caller of every admin route. */
  predicate IsActiveAdmin(users: map<Id, User>, id: Id)
  {
    id in users && users[id].role == AdminRole && users[id].isActive
  }
}
