/** The record store adapter: a key-value table keyed by todoId with a secondary index
    on userId, and the public object URL of an attachment. */
module GroupsAccess {
  import opened TodoItems

  /** The table's contents, and the order in which the owner index holds its keys
      (oldest first). A query on the index for one owner returns that owner's records in
      this order; scanning it backwards gives the newest first. */
  datatype Table = Table(items: map<string, TodoItem>, indexOrder: seq<string>)

  predicate Distinct(s: seq<string>)
  {
    forall i, j :: 0 <= i < j < |s| ==> s[i] != s[j]
  }

  /** The index lists every stored key exactly once, and every record is stored under its
      own todoId. */
  ghost predicate Consistent(t: Table)
  {
    && Distinct(t.indexOrder)
    && (forall k :: k in t.items <==> k in t.indexOrder)
    && (forall k :: k in t.items ==> t.items[k].todoId == k)
  }

  // ---------------------------------------------------------------------------------
  // Point operations on the table
  // ---------------------------------------------------------------------------------

  /** Point lookup by primary key; an absent key gives None rather than an error. */
  function Get(t: Table, todoId: string): (r: Option<TodoItem>)
    ensures r.Some? <==> todoId in t.items
    ensures r.Some? ==> r.value == t.items[todoId]
  {
    if todoId in t.items then Some(t.items[todoId]) else None
  }

  /** Unconditional put: stores item under its todoId, replacing any previous record. */
  function Put(t: Table, item: TodoItem): (r: Table)
    ensures Get(r, item.todoId) == Some(item)
    ensures forall k :: k != item.todoId ==> Get(r, k) == Get(t, k)
    ensures Consistent(t) ==> Consistent(r)
  {
    var order := if item.todoId in t.items then t.indexOrder else t.indexOrder + [item.todoId];
    assert item.todoId !in t.items && Consistent(t) ==> order[|t.indexOrder|] == item.todoId;
    Table(t.items[item.todoId := item], order)
  }

  /** The update expression `set #name = :name, dueDate = :dueDate, done = :done`. */
  function UpdateFields(t: Table, todoId: string, upd: TodoUpdate): (r: Table)
    requires todoId in t.items
    ensures todoId in r.items && SameIdentity(r.items[todoId], t.items[todoId])
    ensures r.items[todoId].attachmentUrl == t.items[todoId].attachmentUrl
    ensures r.items[todoId].name == upd.name && r.items[todoId].dueDate == upd.dueDate
    ensures r.items[todoId].done == upd.done
    ensures forall k :: k != todoId ==> Get(r, k) == Get(t, k)
    ensures Consistent(t) ==> Consistent(r)
  {
    var item := t.items[todoId];
    Table(t.items[todoId := item.(name := upd.name, dueDate := upd.dueDate, done := upd.done)], t.indexOrder)
  }

  /** The update expression `set attachmentUrl = :attachmentUrl`. */
  function SetAttachment(t: Table, todoId: string, url: string): (r: Table)
    requires todoId in t.items
    ensures todoId in r.items && SameIdentity(r.items[todoId], t.items[todoId])
    ensures r.items[todoId].name == t.items[todoId].name
    ensures r.items[todoId].dueDate == t.items[todoId].dueDate
    ensures r.items[todoId].done == t.items[todoId].done
    ensures r.items[todoId].attachmentUrl == Some(url)
    ensures forall k :: k != todoId ==> Get(r, k) == Get(t, k)
    ensures Consistent(t) ==> Consistent(r)
  {
    Table(t.items[todoId := t.items[todoId].(attachmentUrl := Some(url))], t.indexOrder)
  }

  /** Unconditional delete by primary key; an absent key is not an error. */
  function Remove(t: Table, todoId: string): (r: Table)
    ensures Get(r, todoId) == None
    ensures forall k :: k != todoId ==> Get(r, k) == Get(t, k)
    ensures Consistent(t) ==> Consistent(r)
    ensures Consistent(t) && todoId !in t.items ==> r == t
  {
    Table(t.items - {todoId}, Without(t.indexOrder, todoId))
  }

  /** Deleting twice is the same as deleting once. */
  lemma RemoveIdempotent(t: Table, todoId: string)
    requires Consistent(t)
    ensures Remove(Remove(t, todoId), todoId) == Remove(t, todoId)
  {
  }

  /** The index after a key is dropped from it. */
  function Without(s: seq<string>, x: string): (r: seq<string>)
    ensures forall y :: y in r <==> y in s && y != x
    ensures Distinct(s) ==> Distinct(r)
    ensures x !in s ==> r == s
  {
    if s == [] then []
    else if s[0] == x then Without(s[1..], x)
    else
      var rest := Without(s[1..], x);
      assert Distinct(s) ==> s[0] !in s[1..];
      [s[0]] + rest
  }

  // ---------------------------------------------------------------------------------
  // Queries on the owner index
  // ---------------------------------------------------------------------------------

  /** The records under `keys`, in that order, whose userId is `userId`: the key condition
      `userId = :userId` applied while walking the index. */
  function Select(items: map<string, TodoItem>, keys: seq<string>, userId: string): (r: seq<TodoItem>)
    ensures |r| <= |keys|
    ensures forall i :: 0 <= i < |r| ==> r[i].userId == userId
    ensures forall i :: 0 <= i < |r| ==> r[i] in items.Values
  {
    if keys == [] then []
    else
      var head := if keys[0] in items && items[keys[0]].userId == userId then [items[keys[0]]] else [];
      head + Select(items, keys[1..], userId)
  }

  /** The owner query in index order (ScanIndexForward left at its default, true). */
  function ListByOwner(t: Table, userId: string): (r: seq<TodoItem>)
    ensures |r| <= |t.indexOrder|
    ensures forall i :: 0 <= i < |r| ==> r[i].userId == userId && r[i] in t.items.Values
  {
    Select(t.items, t.indexOrder, userId)
  }

  /** The owner query with ScanIndexForward set to false: the index walked backwards. */
  function ListByOwnerDesc(t: Table, userId: string): (r: seq<TodoItem>)
    ensures r == Reverse(ListByOwner(t, userId))
  {
    SelectReverse(t.items, t.indexOrder, userId);
    Select(t.items, Reverse(t.indexOrder), userId)
  }

  function Reverse<T>(s: seq<T>): (r: seq<T>)
    ensures |r| == |s|
  {
    if s == [] then [] else Reverse(s[1..]) + [s[0]]
  }

  lemma {:induction false} ReverseAppend<T>(a: seq<T>, b: seq<T>)
    ensures Reverse(a + b) == Reverse(b) + Reverse(a)
  {
    if a == [] {
      assert a + b == b;
    } else {
      assert (a + b)[1..] == a[1..] + b;
      ReverseAppend(a[1..], b);
    }
  }

  lemma {:induction false} SelectAppend(items: map<string, TodoItem>, a: seq<string>, b: seq<string>, userId: string)
    ensures Select(items, a + b, userId) == Select(items, a, userId) + Select(items, b, userId)
  {
    if a == [] {
      assert a + b == b;
    } else {
      assert (a + b)[1..] == a[1..] + b;
      SelectAppend(items, a[1..], b, userId);
    }
  }

  /** Walking the keys backwards selects the same records in reverse order. */
  lemma {:induction false} SelectReverse(items: map<string, TodoItem>, keys: seq<string>, userId: string)
    ensures Select(items, Reverse(keys), userId) == Reverse(Select(items, keys, userId))
  {
    if keys != [] {
      var head := Select(items, [keys[0]], userId);
      calc {
        Select(items, Reverse(keys), userId);
        Select(items, Reverse(keys[1..]) + [keys[0]], userId);
        { SelectAppend(items, Reverse(keys[1..]), [keys[0]], userId); }
        Select(items, Reverse(keys[1..]), userId) + head;
        { SelectReverse(items, keys[1..], userId); }
        Reverse(Select(items, keys[1..], userId)) + head;
        { assert Reverse(head) == head; }
        Reverse(Select(items, keys[1..], userId)) + Reverse(head);
        { ReverseAppend(head, Select(items, keys[1..], userId)); }
        Reverse(head + Select(items, keys[1..], userId));
        { assert keys == [keys[0]] + keys[1..];
          SelectAppend(items, [keys[0]], keys[1..], userId); }
        Reverse(Select(items, keys, userId));
      }
    }
  }

  lemma {:induction false} SelectMembership(items: map<string, TodoItem>, keys: seq<string>, userId: string, item: TodoItem)
    ensures item in Select(items, keys, userId) <==>
            exists k :: k in keys && k in items && items[k] == item && item.userId == userId
  {
    if keys != [] {
      SelectMembership(items, keys[1..], userId, item);
      assert forall k :: k in keys <==> k == keys[0] || k in keys[1..];
    }
  }

  /** getTodoItems returns a record iff it is stored and belongs to the caller. */
  lemma ListByOwnerExact(t: Table, userId: string, item: TodoItem)
    requires Consistent(t)
    ensures item in ListByOwner(t, userId) <==>
            item.todoId in t.items && t.items[item.todoId] == item && item.userId == userId
  {
    SelectMembership(t.items, t.indexOrder, userId, item);
  }

  predicate NoRepeatedIds(s: seq<TodoItem>)
  {
    forall i, j :: 0 <= i < j < |s| ==> s[i].todoId != s[j].todoId
  }

  lemma {:induction false} SelectNoRepeats(items: map<string, TodoItem>, keys: seq<string>, userId: string)
    requires Distinct(keys)
    requires forall k :: k in keys && k in items ==> items[k].todoId == k
    ensures NoRepeatedIds(Select(items, keys, userId))
  {
    if keys != [] {
      var rest := Select(items, keys[1..], userId);
      SelectNoRepeats(items, keys[1..], userId);
      var r := Select(items, keys, userId);
      if keys[0] in items && items[keys[0]].userId == userId {
        assert r == [items[keys[0]]] + rest;
        forall j | 0 <= j < |rest|
          ensures rest[j].todoId != keys[0]
        {
          SelectMembership(items, keys[1..], userId, rest[j]);
          assert rest[j] in rest;
        }
        forall i, j | 0 <= i < j < |r|
          ensures r[i].todoId != r[j].todoId
        {
          if i == 0 {
            assert r[j] == rest[j - 1];
          } else {
            assert r[i] == rest[i - 1] && r[j] == rest[j - 1];
          }
        }
      } else {
        assert r == rest;
      }
    }
  }

  /** getTodoItems lists each of the caller's records once. */
  lemma ListByOwnerNoRepeats(t: Table, userId: string)
    requires Consistent(t)
    ensures NoRepeatedIds(ListByOwner(t, userId))
  {
    SelectNoRepeats(t.items, t.indexOrder, userId);
  }

  lemma {:induction false} SelectFrame(items: map<string, TodoItem>, items': map<string, TodoItem>, keys: seq<string>, userId: string)
    requires forall k :: k in keys ==> (k in items <==> k in items')
    requires forall k :: k in keys && k in items ==> items[k] == items'[k]
    ensures Select(items, keys, userId) == Select(items', keys, userId)
  {
    if keys != [] {
      SelectFrame(items, items', keys[1..], userId);
    }
  }

  /** Storing a fresh record appends it to its owner's listing and leaves every other
      owner's listing unchanged. */
  lemma ListAfterPutFresh(t: Table, item: TodoItem, userId: string)
    requires Consistent(t) && item.todoId !in t.items
    ensures ListByOwner(Put(t, item), userId) ==
            ListByOwner(t, userId) + (if item.userId == userId then [item] else [])
  {
    var t' := Put(t, item);
    SelectAppend(t'.items, t.indexOrder, [item.todoId], userId);
    SelectFrame(t.items, t'.items, t.indexOrder, userId);
  }

  // ---------------------------------------------------------------------------------
  // Attachment URLs
  // ---------------------------------------------------------------------------------

  /** The public read URL of an object in the attachment bucket. */
  function AttachmentUrl(bucket: string, attachId: string): (url: string)
    ensures |url| == |bucket| + |attachId| + 26
    ensures url[..8] == "https://"
    ensures url[|url| - |attachId|..] == attachId
  {
    "https://" + bucket + ".s3.amazonaws.com/" + attachId
  }

  /** Distinct attachment ids in one bucket get distinct URLs. */
  lemma AttachmentUrlInjective(bucket: string, a: string, b: string)
    requires AttachmentUrl(bucket, a) == AttachmentUrl(bucket, b)
    ensures a == b
  {
  }

  // ---------------------------------------------------------------------------------
  // The adapter object
  // ---------------------------------------------------------------------------------

  /** The store adapter. The table lives in `items` and `indexOrder`; `bucket` is the
      attachment bucket read once at construction. */
  class GroupAccess {
    const bucket: string
    var items: map<string, TodoItem>
    var indexOrder: seq<string>

    function State(): Table
      reads this
    {
      Table(items, indexOrder)
    }

    ghost predicate Valid()
      reads this
    {
      Consistent(State())
    }

    /** The adapter opens a table that already exists and may hold any user's records. */
    constructor (bucket: string, initial: Table)
      requires Consistent(initial)
      ensures this.bucket == bucket
      ensures Valid() && State() == initial
    {
      this.bucket := bucket;
      items := initial.items;
      indexOrder := initial.indexOrder;
    }

    method TodoItemExists(todoId: string) returns (found: bool)
      ensures found <==> Get(State(), todoId).Some?
      ensures found <==> todoId in items
    {
      var item := GetTodoItem(todoId);
      found := item.Some?;
    }

    method GetAttachmentUrl(attachId: string) returns (url: string)
      ensures url == AttachmentUrl(bucket, attachId)
    {
      url := "https://" + bucket + ".s3.amazonaws.com/" + attachId;
    }

    method GetTodoItems(userId: string) returns (todos: seq<TodoItem>)
      ensures todos == ListByOwner(State(), userId)
    {
      todos := Select(items, indexOrder, userId);
    }

    method GetTodoItem(todoId: string) returns (item: Option<TodoItem>)
      ensures item == Get(State(), todoId)
    {
      if todoId in items {
        item := Some(items[todoId]);
      } else {
        item := None;
      }
    }

    method CreateTodo(todoItem: TodoItem)
      requires Valid()
      modifies this
      ensures Valid()
      ensures State() == Put(old(State()), todoItem)
    {
      if todoItem.todoId !in items {
        indexOrder := indexOrder + [todoItem.todoId];
      }
      items := items[todoItem.todoId := todoItem];
    }

    method UpdateTodoItem(todoId: string, todoUpdate: TodoUpdate)
      requires Valid() && todoId in items
      modifies this
      ensures Valid()
      ensures State() == UpdateFields(old(State()), todoId, todoUpdate)
    {
      var item := items[todoId];
      items := items[todoId := item.(name := todoUpdate.name, dueDate := todoUpdate.dueDate, done := todoUpdate.done)];
    }

    method DeleteTodo(todoId: string)
      requires Valid()
      modifies this
      ensures Valid()
      ensures State() == Remove(old(State()), todoId)
    {
      items := items - {todoId};
      indexOrder := Without(indexOrder, todoId);
    }

    method UpdateAttachmentUrl(todoId: string, attachmentUrl: string)
      requires Valid() && todoId in items
      modifies this
      ensures Valid()
      ensures State() == SetAttachment(old(State()), todoId, attachmentUrl)
    {
      items := items[todoId := items[todoId].(attachmentUrl := Some(attachmentUrl))];
    }

    /** `!!result.Items`: the query always yields an item array, possibly empty, so the
        answer is true for every user, including one with no records. */
    method IfUserExists(userId: string) returns (found: bool)
      ensures found
    {
      found := true;
    }

    method GetTodo(userId: string) returns (todos: seq<TodoItem>)
      ensures todos == ListByOwnerDesc(State(), userId)
    {
      todos := Select(items, Reverse(indexOrder), userId);
    }
  }
}
