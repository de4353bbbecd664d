/**
 * The layers composed: repository decisions feeding the service, the service
 * feeding the handlers. For the request scenarios the database is a map
 * from id to stored subscription, answering each statement as the
 * subscriptions table would.
 */
module EndToEnd {
  import opened Wrappers
  import opened Entity
  import opened GoErrors
  import opened Repository
  import opened Service
  import opened Http
  import opened HttpErrors
  import opened Handlers

  /** DELETE /subscriptions/{id} through all three layers, for a given outcome of the DELETE statement. */
  function DeleteRequest(lib: Library, pathId: string, exec: ExecOutcome): seq<Write> {
    DeleteSubscription(lib, pathId, id => CancelSubscription(id, i => DeleteSubscriptionByID(i, exec)))
  }

  /**
   * The error-kind chain: with a well-formed id, a DELETE that removed no row
   * is a 404, one that removed rows is a 200, and a failed statement or
   * row count is a 500.
   */
  lemma DeleteStatusChain(lib: Library, pathId: string, exec: ExecOutcome)
    requires lib.parseUuid(pathId).Some?
    ensures Status(DeleteRequest(lib, pathId, exec)) == Some(StatusNotFound) <==> exec == Executed(RowsAffected(0))
    ensures Status(DeleteRequest(lib, pathId, exec)) == Some(StatusOK) <==>
      exec.Executed? && exec.rowsAffected.RowsAffected? && exec.rowsAffected.count != 0
    ensures Status(DeleteRequest(lib, pathId, exec)) == Some(StatusInternalServerError) <==>
      exec.ExecFailed? || exec.rowsAffected.RowsAffectedFailed?
  {
    var id := lib.parseUuid(pathId).value;
    var repoErr := DeleteSubscriptionByID(id, exec);
    var cancel := (id: Uuid) => CancelSubscription(id, i => DeleteSubscriptionByID(i, exec));
    var err := cancel(id);
    if repoErr.Some? && !Is(repoErr.value, RepoNotFound) {
      assert err.Some? && !Is(err.value, NotFound);
    }
    if err == Some(NotFound) {
      assert Is(err.value, NotFound);
    }
  }

  /** A request with a malformed id never reaches the database: 400 whatever it would have answered. */
  lemma DeleteRejectsBadId(lib: Library, pathId: string, exec: ExecOutcome, exec': ExecOutcome)
    requires lib.parseUuid(pathId).None?
    ensures DeleteRequest(lib, pathId, exec) == DeleteRequest(lib, pathId, exec') == [WriteHeader(StatusBadRequest)]
  {
  }

  /** The query getSubscriptions causes: never a date condition; a nil user id and no name select every row. */
  lemma ListQueryColumns(userId: Uuid, serviceName: string)
    ensures ActiveColumns(QueryFilter(userId, serviceName)) ==
      (if serviceName != "" then [ServiceNameColumn] else []) + (if userId != Nil then [UserIdColumn] else [])
    ensures userId == Nil && serviceName == "" ==> SelectText(ActiveColumns(QueryFilter(userId, serviceName))) == SelectAll
  {
  }

  /*
   * The subscriptions table.
   */

  type Table = map<Uuid, Subscription>

  /**
   * The INSERT of CreateSubscription, binding the entity's six fields to the
   * six columns: the row is stored under its id, unless that primary key is
   * taken, in which case the statement fails and the table is unchanged.
   */
  function Insert(table: Table, sub: Subscription): (r: (Table, Option<string>))
    ensures r.1.None? <==> sub.id !in table
    ensures r.1.None? ==> r.0.Keys == table.Keys + {sub.id} && r.0[sub.id] == sub
    ensures forall id :: id in table ==> id in r.0 && r.0[id] == table[id]
    ensures r.1.Some? ==> r.0 == table
  {
    if sub.id in table then (table, Some("duplicate key value violates unique constraint"))
    else (table[sub.id := sub], None)
  }

  /** The SELECT by primary key: the stored row's five other columns, or no rows. */
  function SelectRow(table: Table, id: Uuid): (r: RowOutcome)
    ensures r.NoRows? <==> id !in table
    ensures id in table ==> r == Scanned(table[id].userId, table[id].serviceName, table[id].price,
                                         table[id].startDate, table[id].endDate)
  {
    if id in table then
      var s := table[id];
      Scanned(s.userId, s.serviceName, s.price, s.startDate, s.endDate)
    else NoRows
  }

  /**
   * The DELETE by primary key: the row with that id is removed, every other
   * row is kept, and the affected-row count is the number of rows removed.
   */
  function Delete(table: Table, id: Uuid): (r: (Table, ExecOutcome))
    ensures r.0.Keys == table.Keys - {id}
    ensures forall k :: k in r.0 ==> r.0[k] == table[k]
    ensures r.1.Executed? && r.1.rowsAffected.RowsAffected?
    ensures r.1.rowsAffected.count as int == |table.Keys| - |r.0.Keys|
  {
    var rest := table - {id};
    assert rest.Keys == table.Keys - {id};
    (rest, Executed(RowsAffected(if id in table then 1 else 0)))
  }

  /**
   * Create, read back, delete, read again, each statement running against
   * the table the previous one left. Service.NewSubscription hands the INSERT
   * exactly `NewSubscriptionEntity(data, newId)`, so the table after the
   * create is `Insert(table, that entity).0`. The new id is the generated
   * one; the record read back carries the request's user, name, price and
   * start date with a zero end date; the first delete succeeds; afterwards
   * the id is neither readable nor deletable.
   */
  lemma CreateGetDeleteScenario(table: Table, data: CreateSubscriptionData, newId: Uuid)
    requires newId !in table
    ensures NewSubscription(data, newId, s => CreateSubscription(s, Insert(table, s).1)) == Ret(newId, None)
    ensures var afterCreate := Insert(table, NewSubscriptionEntity(data, newId)).0;
      var got := GetSubscriptionByID(newId, SelectRow(afterCreate, newId));
      && got.err.None? && got.value.Some?
      && got.value.value == Subscription(newId, data.userId, data.serviceName, data.price, data.startDate, ZeroTime)
      && CancelSubscription(newId, i => DeleteSubscriptionByID(i, Delete(afterCreate, i).1)) == None
      && var afterDelete := Delete(afterCreate, newId).0;
         && GetSubscriptionByID(newId, SelectRow(afterDelete, newId)) == Ret(None, None)
         && CancelSubscription(newId, i => DeleteSubscriptionByID(i, Delete(afterDelete, i).1)) == Some(NotFound)
  {
    var sub := NewSubscriptionEntity(data, newId);
    var afterCreate := Insert(table, sub).0;
    assert newId in afterCreate && afterCreate[newId] == sub;
    DeleteCount(afterCreate, newId);
    var afterDelete := Delete(afterCreate, newId).0;
    assert newId !in afterDelete;
    DeleteCount(afterDelete, newId);
  }

  /** The DELETE affects one row when the id is stored and none otherwise. */
  lemma DeleteCount(table: Table, id: Uuid)
    ensures Delete(table, id).1 == Executed(RowsAffected(if id in table then 1 else 0))
  {
    var rest := Delete(table, id).0;
    if id in table {
      assert table.Keys == rest.Keys + {id};
    } else {
      assert table.Keys == rest.Keys;
    }
  }

  /** Deleting an id that is not stored is a 404 at the HTTP boundary, never a 500. */
  lemma DeleteMissingIsNotFound(lib: Library, pathId: string, table: Table)
    requires lib.parseUuid(pathId).Some? && lib.parseUuid(pathId).value !in table
    ensures Status(DeleteSubscription(lib, pathId,
              id => CancelSubscription(id, i => DeleteSubscriptionByID(i, Delete(table, i).1)))) == Some(StatusNotFound)
  {
    DeleteCount(table, lib.parseUuid(pathId).value);
  }
}
