/**
 * internal/repository/repository.go: the SQL text and bind arguments that
 * GetAllSubscriptionsFilter builds from a filter, and the decisions the
 * single-row operations take on the database's answer. The database itself
 * is an input: the outcome of each statement is passed in.
 */
module Repository {
  import opened Wrappers
  import opened Entity
  import opened GoErrors
  import opened Text

  /** The base statement (written in pieces so that proofs can inspect its characters). */
  const SelectAll: string :=
    "SELECT id, user_id, " + "service_name, price, " + "start_date, end_date " + "FROM app.subscriptions"

  /** The filterable columns, in the order the builder tests them. */
  datatype Column = ServiceNameColumn | UserIdColumn | StartDateColumn | EndDateColumn

  function Rank(c: Column): nat {
    match c
    case ServiceNameColumn => 0
    case UserIdColumn => 1
    case StartDateColumn => 2
    case EndDateColumn => 3
  }

  /** A bind argument, as handed to QueryContext. */
  datatype Arg = TextArg(text: string) | UuidArg(id: Uuid) | TimeArg(at: Time)

  /** The filter field behind a column is non-empty (non-"", non-Nil, non-zero). */
  predicate IsSet(filter: GetSubscriptionsFilter, c: Column) {
    match c
    case ServiceNameColumn => filter.serviceName != ""
    case UserIdColumn => filter.userId != Nil
    case StartDateColumn => !IsZero(filter.startDate)
    case EndDateColumn => !IsZero(filter.endDate)
  }

  /** The value the builder binds for a column. */
  function ArgFor(filter: GetSubscriptionsFilter, c: Column): Arg {
    match c
    case ServiceNameColumn => TextArg(filter.serviceName)
    case UserIdColumn => UuidArg(filter.userId)
    case StartDateColumn => TimeArg(filter.startDate)
    case EndDateColumn => TimeArg(filter.endDate)
  }

  /** The text of a condition up to its placeholder number. */
  function ConditionPrefix(c: Column): string {
    match c
    case ServiceNameColumn => "service_name = $"
    case UserIdColumn => "user_id = $"
    case StartDateColumn => "start_date >= $"
    case EndDateColumn => "end_date <= $"
  }

  /** fmt.Sprintf("<column> <op> $%d", k) */
  function Condition(c: Column, k: nat): string {
    ConditionPrefix(c) + Decimal(k)
  }

  /** `cols` followed by `c` when the filter's field for `c` is set. */
  function Extend(filter: GetSubscriptionsFilter, cols: seq<Column>, c: Column): seq<Column> {
    if IsSet(filter, c) then cols + [c] else cols
  }

  /** The columns of the non-empty fields, each once, in the builder's fixed order. */
  function ActiveColumns(filter: GetSubscriptionsFilter): (cols: seq<Column>)
    ensures forall c :: c in cols <==> IsSet(filter, c)
    ensures forall i, j :: 0 <= i < j < |cols| ==> Rank(cols[i]) < Rank(cols[j])
  {
    var cols0 := Extend(filter, [], ServiceNameColumn);
    var cols1 := Extend(filter, cols0, UserIdColumn);
    var cols2 := Extend(filter, cols1, StartDateColumn);
    Extend(filter, cols2, EndDateColumn)
  }

  /** The k-th condition (from 0) tests cols[k] against placeholder $(k+1). */
  function Conditions(cols: seq<Column>): seq<string> {
    seq(|cols|, k requires 0 <= k < |cols| => Condition(cols[k], k + 1))
  }

  /** The query text for a given list of tested columns. */
  function SelectText(cols: seq<Column>): string {
    if |cols| == 0 then SelectAll else SelectAll + " WHERE " + Join(Conditions(cols), " AND ")
  }

  /** What the builder holds after a step: one condition and one argument per tested column. */
  ghost predicate Built(filter: GetSubscriptionsFilter, cols: seq<Column>, conditions: seq<string>, args: seq<Arg>) {
    && |conditions| == |cols| == |args|
    && conditions == Conditions(cols)
    && forall k :: 0 <= k < |args| ==> args[k] == ArgFor(filter, cols[k])
  }

  lemma AppendCondition(filter: GetSubscriptionsFilter, cols: seq<Column>, conditions: seq<string>, args: seq<Arg>, c: Column)
    requires Built(filter, cols, conditions, args)
    ensures Built(filter, cols + [c], conditions + [Condition(c, |args| + 1)], args + [ArgFor(filter, c)])
  {
    assert Conditions(cols + [c]) == Conditions(cols) + [Condition(c, |args| + 1)];
  }

  /**
   * The query-building half of GetAllSubscriptionsFilter: the SELECT text and
   * its bind arguments. The text is a function of which columns are tested
   * only; the filter's values go to `args` alone.
   */
  method BuildFilterQuery(filter: GetSubscriptionsFilter) returns (query: string, args: seq<Arg>)
    ensures query == SelectText(ActiveColumns(filter))
    ensures |args| == |ActiveColumns(filter)|
    ensures forall k :: 0 <= k < |args| ==> args[k] == ArgFor(filter, ActiveColumns(filter)[k])
  {
    var conditions: seq<string> := [];
    args := [];
    ghost var cols: seq<Column> := [];

    if filter.serviceName != "" {
      AppendCondition(filter, cols, conditions, args, ServiceNameColumn);
      conditions := conditions + [Condition(ServiceNameColumn, |args| + 1)];
      args := args + [TextArg(filter.serviceName)];
      cols := cols + [ServiceNameColumn];
    }
    assert Built(filter, cols, conditions, args) && cols == Extend(filter, [], ServiceNameColumn);
    ghost var cols0 := cols;
    if filter.userId != Nil {
      AppendCondition(filter, cols, conditions, args, UserIdColumn);
      conditions := conditions + [Condition(UserIdColumn, |args| + 1)];
      args := args + [UuidArg(filter.userId)];
      cols := cols + [UserIdColumn];
    }
    assert Built(filter, cols, conditions, args) && cols == Extend(filter, cols0, UserIdColumn);
    ghost var cols1 := cols;
    if !IsZero(filter.startDate) {
      AppendCondition(filter, cols, conditions, args, StartDateColumn);
      conditions := conditions + [Condition(StartDateColumn, |args| + 1)];
      args := args + [TimeArg(filter.startDate)];
      cols := cols + [StartDateColumn];
    }
    assert Built(filter, cols, conditions, args) && cols == Extend(filter, cols1, StartDateColumn);
    ghost var cols2 := cols;
    if !IsZero(filter.endDate) {
      AppendCondition(filter, cols, conditions, args, EndDateColumn);
      conditions := conditions + [Condition(EndDateColumn, |args| + 1)];
      args := args + [TimeArg(filter.endDate)];
      cols := cols + [EndDateColumn];
    }
    assert Built(filter, cols, conditions, args) && cols == Extend(filter, cols2, EndDateColumn);
    assert cols == ActiveColumns(filter);

    var builder := SelectAll;
    if |conditions| > 0 {
      builder := builder + " WHERE ";
      builder := builder + Join(conditions, " AND ");
    }
    query := builder;
  }

  /** Reads a condition back: the column it tests and its placeholder number. */
  function ParseCondition(s: string): Option<(Column, nat)> {
    if ConditionPrefix(ServiceNameColumn) <= s then NumberedBy(ServiceNameColumn, s)
    else if ConditionPrefix(UserIdColumn) <= s then NumberedBy(UserIdColumn, s)
    else if ConditionPrefix(StartDateColumn) <= s then NumberedBy(StartDateColumn, s)
    else if ConditionPrefix(EndDateColumn) <= s then NumberedBy(EndDateColumn, s)
    else None
  }

  function NumberedBy(c: Column, s: string): Option<(Column, nat)>
    requires ConditionPrefix(c) <= s
  {
    match ParseDecimal(s[|ConditionPrefix(c)|..])
    case Some(k) => Some((c, k))
    case None => None
  }

  lemma ConditionRoundTrip(c: Column, k: nat)
    ensures ParseCondition(Condition(c, k)) == Some((c, k))
  {
    var s := Condition(c, k);
    var p := ConditionPrefix(c);
    assert s[|p|..] == Decimal(k);
    DecimalRoundTrip(k);
    match c
    case ServiceNameColumn =>
    case UserIdColumn =>
      assert s[0] == 'u';
    case StartDateColumn =>
      assert s[1] == 't';
    case EndDateColumn =>
      assert s[0] == 'e';
  }

  /**
   * Condition k (counting from 0) tests column cols[k] and uses placeholder
   * $(k+1), so the placeholders are exactly $1..$n in append order.
   */
  lemma PlaceholdersInOrder(cols: seq<Column>)
    ensures |Conditions(cols)| == |cols|
    ensures forall k :: 0 <= k < |cols| ==> ParseCondition(Conditions(cols)[k]) == Some((cols[k], k + 1))
  {
    forall k | 0 <= k < |cols|
      ensures ParseCondition(Conditions(cols)[k]) == Some((cols[k], k + 1))
    {
      ConditionRoundTrip(cols[k], k + 1);
    }
  }

  /** `pat` occurs in `s` starting at index `i`. */
  predicate OccursAt(s: string, pat: string, i: int) {
    0 <= i && i + |pat| <= |s| && s[i..i + |pat|] == pat
  }

  lemma ConditionAvoidsW(c: Column, k: nat)
    ensures 'W' !in Condition(c, k)
  {
    var d := Decimal(k);
    assert forall i :: 0 <= i < |d| ==> IsDigit(d[i]);
    assert 'W' !in d;
  }

  /** The filter conditions, joined by " AND ", contain no 'W'. */
  lemma ConditionsAvoidW(cols: seq<Column>)
    ensures 'W' !in Join(Conditions(cols), " AND ")
  {
    var parts := Conditions(cols);
    forall k | 0 <= k < |parts|
      ensures 'W' !in parts[k]
    {
      ConditionAvoidsW(cols[k], k + 1);
    }
    JoinAvoids(parts, " AND ", 'W');
  }

  /** In a + b + c, where a and c have no 'W', every 'W' lies inside b. */
  lemma WOnlyInMiddle(a: string, b: string, c: string, i: int)
    requires 'W' !in a && 'W' !in c
    requires 0 <= i < |a + b + c| && (a + b + c)[i] == 'W'
    ensures |a| <= i < |a| + |b| && b[i - |a|] == 'W'
  {
    var s := a + b + c;
    if |a| <= i < |a| + |b| {
      assert s[i] == b[i - |a|];
    }
  }

  /** A text lacking one of the pattern's characters does not contain the pattern. */
  lemma NoOccurrence(s: string, pat: string, c: char)
    requires c in pat && c !in s
    ensures forall i :: !OccursAt(s, pat, i)
  {
    forall i | OccursAt(s, pat, i)
      ensures false
    {
    }
  }

  lemma SelectAllAvoidsW()
    ensures 'W' !in SelectAll
  {
    assert 'W' !in "SELECT id, user_id, " && 'W' !in "service_name, price, ";
    assert 'W' !in "start_date, end_date " && 'W' !in "FROM app.subscriptions";
  }

  /**
   * " WHERE " occurs in the query exactly once, right after the base SELECT,
   * when at least one column is tested, and not at all otherwise.
   */
  lemma WhereOnce(cols: seq<Column>)
    ensures |cols| > 0 ==> OccursAt(SelectText(cols), " WHERE ", |SelectAll|)
    ensures forall i :: OccursAt(SelectText(cols), " WHERE ", i) ==> |cols| > 0 && i == |SelectAll|
  {
    SelectAllAvoidsW();
    if |cols| == 0 {
      NoOccurrence(SelectAll, " WHERE ", 'W');
    } else {
      WhereAfterSelect(cols);
    }
  }

  lemma WhereAfterSelect(cols: seq<Column>)
    requires |cols| > 0 && 'W' !in SelectAll
    ensures OccursAt(SelectText(cols), " WHERE ", |SelectAll|)
    ensures forall i :: OccursAt(SelectText(cols), " WHERE ", i) ==> i == |SelectAll|
  {
    ConditionsAvoidW(cols);
    OnlyOccurrence(SelectAll, Join(Conditions(cols), " AND "));
  }

  /** Between two texts without a 'W', " WHERE " occurs exactly once: where it was put. */
  lemma OnlyOccurrence(a: string, c: string)
    requires 'W' !in a && 'W' !in c
    ensures OccursAt(a + " WHERE " + c, " WHERE ", |a|)
    ensures forall i :: OccursAt(a + " WHERE " + c, " WHERE ", i) ==> i == |a|
  {
    var q := a + " WHERE " + c;
    assert q[|a|..|a| + 7] == " WHERE ";
    forall i | OccursAt(q, " WHERE ", i)
      ensures i == |a|
    {
      assert q[i + 1] == " WHERE "[1];
      WOnlyInMiddle(a, " WHERE ", c, i + 1);
    }
  }

  /** With every field empty nothing is tested: the base SELECT, no WHERE, no arguments. */
  lemma EmptyFilterSelectsAll(filter: GetSubscriptionsFilter)
    requires filter.serviceName == "" && filter.userId == Nil
    requires IsZero(filter.startDate) && IsZero(filter.endDate)
    ensures ActiveColumns(filter) == []
    ensures SelectText(ActiveColumns(filter)) == SelectAll
  {
  }

  /** Filters that agree on which fields are set get the same query text, whatever their values. */
  lemma QueryIgnoresValues(f: GetSubscriptionsFilter, g: GetSubscriptionsFilter)
    requires forall c: Column :: IsSet(f, c) <==> IsSet(g, c)
    ensures SelectText(ActiveColumns(f)) == SelectText(ActiveColumns(g))
  {
    assert IsSet(f, ServiceNameColumn) <==> IsSet(g, ServiceNameColumn);
    assert IsSet(f, UserIdColumn) <==> IsSet(g, UserIdColumn);
    assert IsSet(f, StartDateColumn) <==> IsSet(g, StartDateColumn);
    assert IsSet(f, EndDateColumn) <==> IsSet(g, EndDateColumn);
  }

  /*
   * Single-row operations. What the database answered is an input.
   */

  /** Outcome of db.ExecContext followed, on success, by res.RowsAffected(). */
  datatype ExecOutcome = ExecFailed(message: string) | Executed(rowsAffected: RowsAffectedOutcome)

  datatype RowsAffectedOutcome = RowsAffectedFailed(message: string) | RowsAffected(count: int64)

  /** Outcome of QueryRowContext(...).Scan(...) for the five selected columns. */
  datatype RowOutcome =
    | NoRows                                     // sql.ErrNoRows
    | QueryFailed(message: string)               // any other error
    | Scanned(userId: Uuid, serviceName: string, price: int32, startDate: Time, endDate: Time)

  /** CreateSubscription: the INSERT's error, if any, is returned unwrapped. */
  function CreateSubscription(subscription: Subscription, execError: Option<string>): (r: Ret<Uuid>)
    ensures r.err.None? <==> execError.None?
    ensures r.err.None? ==> r.value == subscription.id
    ensures r.err.Some? ==> r.value == Nil && r.err.value == Failure(execError.value)
  {
    if execError.Some? then Ret(Nil, Some(Failure(execError.value))) else Ret(subscription.id, None)
  }

  /**
   * GetSubscriptionByID: "no rows" is a nil result with a nil error, distinct
   * from a failed query; a found row is returned under the requested id.
   */
  function GetSubscriptionByID(id: Uuid, row: RowOutcome): (r: Ret<Option<Subscription>>)
    ensures r == Ret(None, None) <==> row.NoRows?
    ensures r.err.Some? <==> row.QueryFailed?
    ensures r.err.Some? ==> r.value.None? && !Is(r.err.value, NotFound) && !Is(r.err.value, RepoNotFound)
    ensures r.value.Some? ==> r.err.None? && row.Scanned? && r.value.value.id == id
    ensures row.Scanned? ==>
              && r.value.Some?
              && r.value.value.userId == row.userId
              && r.value.value.serviceName == row.serviceName
              && r.value.value.price == row.price
              && r.value.value.startDate == row.startDate
              && r.value.value.endDate == row.endDate
  {
    match row
    case NoRows => Ret(None, None)
    case QueryFailed(m) => Ret(None, Some(Wrapped("query row", Failure(m))))
    case Scanned(userId, serviceName, price, startDate, endDate) =>
      Ret(Some(Subscription(id, userId, serviceName, price, startDate, endDate)), None)
  }

  /**
   * DeleteSubscriptionByID: ErrRepoNotFound exactly when the DELETE ran, the
   * row count was read, and it was zero; nil for any other count; the
   * driver's errors otherwise, wrapped.
   */
  function DeleteSubscriptionByID(id: Uuid, exec: ExecOutcome): (err: Option<Error>)
    ensures err.Some? && Is(err.value, RepoNotFound) <==> exec == Executed(RowsAffected(0))
    ensures err == Some(RepoNotFound) <==> exec == Executed(RowsAffected(0))
    ensures err.None? <==> exec.Executed? && exec.rowsAffected.RowsAffected? && exec.rowsAffected.count != 0
    ensures err.Some? && err.value != RepoNotFound ==> err.value.Wrapped?
    ensures err.Some? ==> !Is(err.value, NotFound)
  {
    match exec
    case ExecFailed(m) => Some(Wrapped("exec query", Failure(m)))
    case Executed(RowsAffectedFailed(m)) => Some(Wrapped("get rows affected", Failure(m)))
    case Executed(RowsAffected(n)) => if n == 0 then Some(RepoNotFound) else None
  }
}
