/** The task service: ownership-checked operations over one shared record store. */
module Groups {
  import opened TodoItems
  import opened GroupsAccess

  /** How a mutating request ends: it is carried out, its record is missing, or the
      caller does not own the record. */
  datatype Outcome = Ok | NotFound | Forbidden

  /** The look-up-then-check sequence every mutating operation runs before it writes:
      missing first, then ownership. */
  function Authorize(t: Table, userId: string, todoId: string): (r: Outcome)
    ensures r == NotFound <==> todoId !in t.items
    ensures r == Forbidden <==> todoId in t.items && t.items[todoId].userId != userId
    ensures r == Ok <==> todoId in t.items && t.items[todoId].userId == userId
  {
    match Get(t, todoId)
    case None => NotFound
    case Some(item) => if item.userId != userId then Forbidden else Ok
  }

  // ---------------------------------------------------------------------------------
  // Creating a record
  // ---------------------------------------------------------------------------------

  /** The record createTodoItem builds as written: the defaults first, then every field
      of the parsed request body, so a body field of the same name wins. */
  function SpreadAsWritten(userId: string, todoId: string, createdAt: string, req: CreateTodoRequest): (item: TodoItem)
    ensures req.stray == NoStrayFields ==> item == NewTodoItem(userId, todoId, createdAt, req)
  {
    TodoItem(
      userId := GetOr(req.stray.userId, userId),
      todoId := GetOr(req.stray.todoId, todoId),
      createdAt := GetOr(req.stray.createdAt, createdAt),
      name := req.name,
      dueDate := req.dueDate,
      done := GetOr(req.stray.done, false),
      attachmentUrl := GetOr(req.stray.attachmentUrl, None))
  }

  /** A request body naming an existing record's id lets any caller replace that record
      under their own name, although the freshly generated id was unused. */
  lemma SpreadAsWrittenTakesOverRecord()
    ensures
      var victim := TodoItem("alice", "t1", "2024-01-01T00:00:00.000Z", "pay rent", "2024-02-01", false, None);
      var t := Table(map["t1" := victim], ["t1"]);
      var req := CreateTodoRequest("mine now", "2024-03-01", NoStrayFields.(todoId := Some("t1")));
      var t' := Put(t, SpreadAsWritten("mallory", "fresh-uuid", "2024-01-02T00:00:00.000Z", req));
      && "fresh-uuid" !in t.items
      && Consistent(t)
      && "t1" in t'.items
      && t'.items["t1"].userId == "mallory"
      && !SameIdentity(t'.items["t1"], victim)
  {
  }

  /** The record createTodoItem evidently means to build: the caller's id, the fresh
      todoId and the creation time; done false and no attachment; name and dueDate
      from the request. Nothing else in the body is taken. */
  function NewTodoItem(userId: string, todoId: string, createdAt: string, req: CreateTodoRequest): (item: TodoItem)
    ensures item.userId == userId && item.todoId == todoId && item.createdAt == createdAt
    ensures !item.done && item.attachmentUrl == None
    ensures item.name == req.name && item.dueDate == req.dueDate
  {
    TodoItem(userId, todoId, createdAt, req.name, req.dueDate, false, None)
  }

  /** What the body sends beyond name and dueDate has no effect on the record. */
  lemma NewTodoItemIgnoresStrayFields(userId: string, todoId: string, createdAt: string, req: CreateTodoRequest, stray: StrayFields)
    ensures NewTodoItem(userId, todoId, createdAt, req) == NewTodoItem(userId, todoId, createdAt, req.(stray := stray))
  {
  }

  function CreateTodoItemSpec(t: Table, userId: string, todoId: string, createdAt: string, req: CreateTodoRequest): (r: (TodoItem, Table))
    ensures r.0.userId == userId && r.0.todoId == todoId && r.0.createdAt == createdAt
    ensures Get(r.1, todoId) == Some(r.0)
    ensures forall k :: k != todoId ==> Get(r.1, k) == Get(t, k)
    ensures Consistent(t) ==> Consistent(r.1)
  {
    var item := NewTodoItem(userId, todoId, createdAt, req);
    (item, Put(t, item))
  }

  /** A created record is readable under its id, shows up at the end of its owner's
      listing and in no other owner's listing, and nothing else is stored or changed. */
  lemma CreateTodoItemListed(t: Table, userId: string, todoId: string, createdAt: string, req: CreateTodoRequest, other: string)
    requires Consistent(t) && todoId !in t.items
    ensures var (item, t') := CreateTodoItemSpec(t, userId, todoId, createdAt, req);
            && Get(t', todoId) == Some(item)
            && (forall k :: k != todoId ==> Get(t', k) == Get(t, k))
            && ListByOwner(t', userId) == ListByOwner(t, userId) + [item]
            && (other != userId ==> ListByOwner(t', other) == ListByOwner(t, other))
  {
    var item := NewTodoItem(userId, todoId, createdAt, req);
    ListAfterPutFresh(t, item, userId);
    ListAfterPutFresh(t, item, other);
  }

  // ---------------------------------------------------------------------------------
  // Ownership-checked updates and deletion
  // ---------------------------------------------------------------------------------

  function UpdateTodoSpec(t: Table, userId: string, todoId: string, upd: TodoUpdate): (r: (Outcome, Table))
    ensures r.0 == Authorize(t, userId, todoId)
    ensures r.0 != Ok ==> r.1 == t
    ensures r.0 == Ok ==> r.1.items.Keys == t.items.Keys
    ensures Consistent(t) ==> Consistent(r.1)
  {
    var r := Authorize(t, userId, todoId);
    (r, if r == Ok then UpdateFields(t, todoId, upd) else t)
  }

  function DeleteTodoItemSpec(t: Table, userId: string, todoId: string): (r: (Outcome, Table))
    ensures r.0 == Authorize(t, userId, todoId)
    ensures r.0 != Ok ==> r.1 == t
    ensures r.0 == Ok ==> r.1.items.Keys == t.items.Keys - {todoId}
    ensures Consistent(t) ==> Consistent(r.1)
  {
    var r := Authorize(t, userId, todoId);
    (r, if r == Ok then Remove(t, todoId) else t)
  }

  function UpdateAttachUrlSpec(bucket: string, t: Table, userId: string, todoId: string, attachId: string): (r: (Outcome, Table))
    ensures r.0 == Authorize(t, userId, todoId)
    ensures r.0 != Ok ==> r.1 == t
    ensures r.0 == Ok ==> r.1.items.Keys == t.items.Keys
    ensures Consistent(t) ==> Consistent(r.1)
  {
    var url := AttachmentUrl(bucket, attachId);
    var r := Authorize(t, userId, todoId);
    (r, if r == Ok then SetAttachment(t, todoId, url) else t)
  }

  /** updateTodo: a refused request leaves the table alone; an accepted one sets exactly
      name, dueDate and done of that record. */
  lemma UpdateTodoEffect(t: Table, userId: string, todoId: string, upd: TodoUpdate)
    ensures var (r, t') := UpdateTodoSpec(t, userId, todoId, upd);
            && (r != Ok ==> t' == t)
            && (r == Ok ==>
                  && Get(t', todoId) == Some(t.items[todoId].(name := upd.name, dueDate := upd.dueDate, done := upd.done))
                  && forall k :: k != todoId ==> Get(t', k) == Get(t, k))
  {
  }

  /** deleteTodoItem: a refused request leaves the table alone; an accepted one removes
      that record, after which it reads as absent, and nothing else. */
  lemma DeleteTodoItemEffect(t: Table, userId: string, todoId: string)
    ensures var (r, t') := DeleteTodoItemSpec(t, userId, todoId);
            && (r != Ok ==> t' == t)
            && (r == Ok ==> Get(t', todoId) == None && forall k :: k != todoId ==> Get(t', k) == Get(t, k))
  {
  }

  /** updateAttachUrl: a refused request leaves the table alone; an accepted one sets
      exactly the record's attachmentUrl, to the public URL of the attachment id. */
  lemma UpdateAttachUrlEffect(bucket: string, t: Table, userId: string, todoId: string, attachId: string)
    ensures var (r, t') := UpdateAttachUrlSpec(bucket, t, userId, todoId, attachId);
            && (r != Ok ==> t' == t)
            && (r == Ok ==>
                  && Get(t', todoId) == Some(t.items[todoId].(attachmentUrl := Some(AttachmentUrl(bucket, attachId))))
                  && forall k :: k != todoId ==> Get(t', k) == Get(t, k))
  {
  }

  // ---------------------------------------------------------------------------------
  // Sequences of requests
  // ---------------------------------------------------------------------------------

  /** A state-changing request to the service, with the generated id and clock reading
      of a creation supplied by the caller. */
  datatype Request =
    | CreateRequest(userId: string, todoId: string, createdAt: string, req: CreateTodoRequest)
    | UpdateRequest(userId: string, todoId: string, upd: TodoUpdate)
    | DeleteRequest(userId: string, todoId: string)
    | AttachRequest(userId: string, todoId: string, attachId: string)

  /** The table after one request; every request keeps the table consistent, including a
      creation that overwrites an id already stored. */
  function Step(bucket: string, t: Table, rq: Request): (r: Table)
    ensures Consistent(t) ==> Consistent(r)
    ensures rq.DeleteRequest? || rq.CreateRequest? || r.items.Keys == t.items.Keys
  {
    match rq
    case CreateRequest(u, id, c, req) => CreateTodoItemSpec(t, u, id, c, req).1
    case UpdateRequest(u, id, upd) => UpdateTodoSpec(t, u, id, upd).1
    case DeleteRequest(u, id) => DeleteTodoItemSpec(t, u, id).1
    case AttachRequest(u, id, a) => UpdateAttachUrlSpec(bucket, t, u, id, a).1
  }

  /** The table after a sequence of requests, each completing before the next starts. */
  function Run(bucket: string, t: Table, rqs: seq<Request>): (r: Table)
    ensures Consistent(t) ==> Consistent(r)
    ensures (forall i :: 0 <= i < |rqs| ==> rqs[i].UpdateRequest? || rqs[i].AttachRequest?) ==>
              r.items.Keys == t.items.Keys
    decreases rqs
  {
    if rqs == [] then t else Run(bucket, Step(bucket, t, rqs[0]), rqs[1..])
  }

  /** A request never touches a record that belongs to someone other than its caller,
      unless it is a creation that reuses that record's id. */
  lemma StepLeavesOthersAlone(bucket: string, t: Table, rq: Request, k: string)
    requires k in t.items && t.items[k].userId != rq.userId
    requires rq.CreateRequest? ==> rq.todoId != k
    ensures Get(Step(bucket, t, rq), k) == Get(t, k)
  {
  }

  /** However many requests other users make, a user's records stay exactly as they
      are, as long as no creation reuses their ids. */
  lemma {:induction false} RunLeavesOthersAlone(bucket: string, t: Table, rqs: seq<Request>, k: string)
    requires k in t.items
    requires forall i :: 0 <= i < |rqs| ==> rqs[i].userId != t.items[k].userId
    requires forall i :: 0 <= i < |rqs| ==> rqs[i].CreateRequest? ==> rqs[i].todoId != k
    ensures Get(Run(bucket, t, rqs), k) == Get(t, k)
    decreases rqs
  {
    if rqs != [] {
      var t1 := Step(bucket, t, rqs[0]);
      StepLeavesOthersAlone(bucket, t, rqs[0], k);
      assert forall i :: 0 <= i < |rqs[1..]| ==> rqs[1..][i] == rqs[i + 1];
      RunLeavesOthersAlone(bucket, t1, rqs[1..], k);
    }
  }

  /** No request changes the userId, todoId or createdAt of a record it leaves stored,
      and only a creation can bring a missing id into the table. */
  lemma StepKeepsIdentity(bucket: string, t: Table, rq: Request, k: string)
    requires Consistent(t)
    requires rq.CreateRequest? ==> rq.todoId !in t.items
    ensures var t' := Step(bucket, t, rq);
            && Consistent(t')
            && (k in t.items && k in t'.items ==> SameIdentity(t'.items[k], t.items[k]))
            && (k !in t.items && k in t'.items ==> rq.CreateRequest? && rq.todoId == k)
  {
  }

  /** Along any run whose creations use ids never stored before, a record that is still
      stored at the end has the userId, todoId and createdAt it had at the start. */
  lemma {:induction false} RunKeepsIdentity(bucket: string, t: Table, rqs: seq<Request>, k: string)
    requires Consistent(t)
    requires FreshCreations(t, rqs)
    requires k in t.items
    ensures k in Run(bucket, t, rqs).items ==> SameIdentity(Run(bucket, t, rqs).items[k], t.items[k])
    decreases rqs
  {
    if rqs != [] {
      var t1 := Step(bucket, t, rqs[0]);
      StepKeepsIdentity(bucket, t, rqs[0], k);
      FreshCreationsStep(bucket, t, rqs);
      if k in t1.items {
        RunKeepsIdentity(bucket, t1, rqs[1..], k);
      } else {
        assert forall i :: 0 <= i < |rqs[1..]| ==> rqs[1..][i] == rqs[i + 1];
        RunNeverRestores(bucket, t1, rqs[1..], k);
      }
    }
  }

  /** Every creation in the run uses an id that is not stored when it runs; stated on
      the ids alone: none is stored at the start and none is used twice. */
  ghost predicate FreshCreations(t: Table, rqs: seq<Request>)
  {
    && (forall i :: 0 <= i < |rqs| && rqs[i].CreateRequest? ==> rqs[i].todoId !in t.items)
    && (forall i, j :: 0 <= i < j < |rqs| && rqs[i].CreateRequest? && rqs[j].CreateRequest? ==>
          rqs[i].todoId != rqs[j].todoId)
  }

  lemma FreshCreationsStep(bucket: string, t: Table, rqs: seq<Request>)
    requires Consistent(t) && FreshCreations(t, rqs) && rqs != []
    ensures FreshCreations(Step(bucket, t, rqs[0]), rqs[1..])
  {
  }

  /** A key that is gone stays gone while no creation uses it. */
  lemma {:induction false} RunNeverRestores(bucket: string, t: Table, rqs: seq<Request>, k: string)
    requires Consistent(t)
    requires FreshCreations(t, rqs)
    requires k !in t.items
    requires forall i :: 0 <= i < |rqs| && rqs[i].CreateRequest? ==> rqs[i].todoId != k
    ensures k !in Run(bucket, t, rqs).items
    decreases rqs
  {
    if rqs != [] {
      var t1 := Step(bucket, t, rqs[0]);
      StepKeepsIdentity(bucket, t, rqs[0], k);
      FreshCreationsStep(bucket, t, rqs);
      assert forall i :: 0 <= i < |rqs[1..]| ==> rqs[1..][i] == rqs[i + 1];
      RunNeverRestores(bucket, t1, rqs[1..], k);
    }
  }

  // ---------------------------------------------------------------------------------
  // The service operations over the shared store
  // ---------------------------------------------------------------------------------

  method GetTodos(store: GroupAccess, userId: string) returns (todos: seq<TodoItem>)
    ensures todos == ListByOwner(store.State(), userId)
  {
    todos := store.GetTodoItems(userId);
  }

  /** The generated id and the clock reading are passed in; the id must be unused. */
  method CreateTodoItem(store: GroupAccess, userId: string, todoId: string, createdAt: string, req: CreateTodoRequest)
    returns (item: TodoItem)
    requires store.Valid() && todoId !in store.items
    modifies store
    ensures store.Valid()
    ensures (item, store.State()) == CreateTodoItemSpec(old(store.State()), userId, todoId, createdAt, req)
  {
    item := NewTodoItem(userId, todoId, createdAt, req);
    store.CreateTodo(item);
  }

  method UpdateTodo(store: GroupAccess, userId: string, todoId: string, upd: TodoUpdate) returns (r: Outcome)
    requires store.Valid()
    modifies store
    ensures store.Valid()
    ensures (r, store.State()) == UpdateTodoSpec(old(store.State()), userId, todoId, upd)
  {
    var item := store.GetTodoItem(todoId);
    if item.None? {
      return NotFound;
    }
    if item.value.userId != userId {
      return Forbidden;
    }
    store.UpdateTodoItem(todoId, upd);
    r := Ok;
  }

  method DeleteTodoItem(store: GroupAccess, userId: string, todoId: string) returns (r: Outcome)
    requires store.Valid()
    modifies store
    ensures store.Valid()
    ensures (r, store.State()) == DeleteTodoItemSpec(old(store.State()), userId, todoId)
  {
    var item := store.GetTodoItem(todoId);
    if item.None? {
      return NotFound;
    }
    if item.value.userId != userId {
      return Forbidden;
    }
    store.DeleteTodo(todoId);
    r := Ok;
  }

  method UpdateAttachUrl(store: GroupAccess, userId: string, todoId: string, attachId: string) returns (r: Outcome)
    requires store.Valid()
    modifies store
    ensures store.Valid()
    ensures (r, store.State()) == UpdateAttachUrlSpec(store.bucket, old(store.State()), userId, todoId, attachId)
  {
    var attachmentUrl := store.GetAttachmentUrl(attachId);
    var item := store.GetTodoItem(todoId);
    if item.None? {
      return NotFound;
    }
    if item.value.userId != userId {
      return Forbidden;
    }
    store.UpdateAttachmentUrl(todoId, attachmentUrl);
    r := Ok;
  }

  method IfUserExists(store: GroupAccess, userId: string) returns (found: bool)
    ensures found
  {
    found := store.IfUserExists(userId);
  }

  method GetTodo(store: GroupAccess, userId: string) returns (todos: seq<TodoItem>)
    ensures todos == ListByOwnerDesc(store.State(), userId)
    ensures todos == Reverse(ListByOwner(store.State(), userId))
  {
    todos := store.GetTodo(userId);
  }

  /** A create, update, foreign update, delete, read sequence on a fresh store. */
  method Scenario()
  {
    var store := new GroupAccess("attachments", Table(map[], []));
    var req := CreateTodoRequest("write spec", "2024-01-01", NoStrayFields);
    var item := CreateTodoItem(store, "u1", "id-1", "2024-01-01T09:00:00.000Z", req);
    assert !item.done && item.attachmentUrl == None && item.userId == "u1";

    var r := UpdateTodo(store, "u1", "id-1", TodoUpdate("write spec v2", "2024-01-01", true));
    assert r == Ok;
    var read := store.GetTodoItem("id-1");
    assert read.Some? && read.value.done && read.value.name == "write spec v2";

    r := UpdateTodo(store, "u2", "id-1", TodoUpdate("hijack", "2024-01-01", false));
    assert r == Forbidden;

    r := DeleteTodoItem(store, "u1", "id-1");
    assert r == Ok;
    read := store.GetTodoItem("id-1");
    assert read == None;

    r := DeleteTodoItem(store, "u1", "id-1");
    assert r == NotFound;
  }
}
