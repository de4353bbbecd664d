/**
 * internal/service/service.go: entity assembly, error translation and
 * delegation. The repository is a parameter: each operation receives the
 * repository call it makes, as a function from its argument to its result.
 */
module Service {
  import opened Wrappers
  import opened Entity
  import opened GoErrors

  /**
   * The entity NewSubscription hands to the repository: a freshly generated
   * id (`newId`, the value of uuid.New()) and the caller's user, service,
   * price and start date. The end date is not copied and stays zero.
   */
  function NewSubscriptionEntity(data: CreateSubscriptionData, newId: Uuid): (sub: Subscription)
    ensures sub.id == newId
    ensures sub.userId == data.userId && sub.serviceName == data.serviceName
    ensures sub.price == data.price && sub.startDate == data.startDate
    ensures IsZero(sub.endDate)
  {
    Subscription(newId, data.userId, data.serviceName, data.price, data.startDate, ZeroTime)
  }

  /**
   * NewSubscription: on success the id the repository returned; on failure
   * uuid.Nil and the repository's error, wrapped so that it still matches
   * whatever sentinel it matched.
   */
  function NewSubscription(data: CreateSubscriptionData, newId: Uuid, create: Subscription -> Ret<Uuid>): (r: Ret<Uuid>)
    ensures var res := create(NewSubscriptionEntity(data, newId));
      && (r.err.None? <==> res.err.None?)
      && (r.err.None? ==> r.value == res.value)
      && (r.err.Some? ==> r.value == Nil && r.err.value.Wrapped? && r.err.value.inner == res.err.value)
  {
    var sub := NewSubscriptionEntity(data, newId);
    var res := create(sub);
    if res.err.Some? then Ret(Nil, Some(Wrapped("repo: create subscription", res.err.value)))
    else Ret(res.value, None)
  }

  /**
   * CancelSubscription: ErrNotFound exactly when the repository's delete
   * failed with an error matching ErrRepoNotFound; nil exactly when it
   * succeeded; any other error wrapped, matching ErrNotFound only if the
   * repository's error already did.
   */
  function CancelSubscription(id: Uuid, delete: Uuid -> Option<Error>): (r: Option<Error>)
    ensures var e := delete(id);
      && (r == Some(NotFound) <==> e.Some? && Is(e.value, RepoNotFound))
      && (r.None? <==> e.None?)
      && (e.Some? && !Is(e.value, RepoNotFound) ==>
            r.Some? && r.value.Wrapped? && (Is(r.value, NotFound) <==> Is(e.value, NotFound)))
  {
    var e := delete(id);
    if e.Some? then
      if Is(e.value, RepoNotFound) then Some(NotFound)
      else Some(Wrapped("repo: delete subscription", e.value))
    else None
  }

  /**
   * GetSubscriptionsTotalSumFilter: the repository's list unchanged (nothing
   * is summed, dropped or reordered), or no list and the error wrapped.
   */
  function GetSubscriptionsTotalSumFilter(
    filter: GetSubscriptionsFilter, list: GetSubscriptionsFilter -> Ret<seq<Subscription>>): (r: Ret<seq<Subscription>>)
    ensures var res := list(filter);
      && (r.err.None? <==> res.err.None?)
      && (r.err.None? ==> r.value == res.value)
      && (r.err.Some? ==> r.value == [] && r.err.value.Wrapped? && r.err.value.inner == res.err.value)
  {
    var res := list(filter);
    if res.err.Some? then Ret([], Some(Wrapped("repo: get all subscriptions with filter", res.err.value)))
    else Ret(res.value, None)
  }
}
