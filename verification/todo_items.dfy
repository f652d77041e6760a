/** The records the to-do store keeps and the request bodies that reach the service. */
module TodoItems {

  datatype Option<+T> = None | Some(value: T)

  function GetOr<T>(o: Option<T>, default: T): T
  {
    match o
    case Some(v) => v
    case None => default
  }

  /** One stored to-do record, keyed by todoId. attachmentUrl is null (None) until an
      attachment is linked. */
  datatype TodoItem = TodoItem(
    userId: string,
    todoId: string,
    createdAt: string,
    name: string,
    dueDate: string,
    done: bool,
    attachmentUrl: Option<string>)

  /** The three fields an update request carries. */
  datatype TodoUpdate = TodoUpdate(name: string, dueDate: string, done: bool)

  /** Fields of a parsed creation body beyond the declared name and dueDate: the body is
      parsed without a schema, so whatever record fields the client sent are kept. */
  datatype StrayFields = StrayFields(
    userId: Option<string>,
    todoId: Option<string>,
    createdAt: Option<string>,
    done: Option<bool>,
    attachmentUrl: Option<Option<string>>)

  const NoStrayFields := StrayFields(None, None, None, None, None)

  datatype CreateTodoRequest = CreateTodoRequest(name: string, dueDate: string, stray: StrayFields)

  /** The fields that identify a record and must never change once it is stored. */
  predicate SameIdentity(a: TodoItem, b: TodoItem)
  {
    a.userId == b.userId && a.todoId == b.todoId && a.createdAt == b.createdAt
  }
}
