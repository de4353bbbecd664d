/**
 * internal/controller/handlers.go: the three HTTP handlers. Each validates
 * its input (400 and an early return on failure), calls the service, and
 * either reports the service's error through handleError or writes its
 * result. The service calls and the library calls are parameters.
 */
module Handlers {
  import opened Wrappers
  import opened Entity
  import opened GoErrors
  import opened Dto
  import opened Http
  import opened HttpErrors

  /** The library functions the handlers call; their behaviour is not modelled. */
  datatype Library = Library(
    parseUuid: string -> Option<Uuid>,             // uuid.Parse
    uuidString: Uuid -> string,                    // uuid.UUID.String
    parseTime: (string, string) -> Option<Time>,   // time.Parse(layout, value)
    formatTime: (Time, string) -> string)          // time.Time.Format(layout)

  const RFC3339 := "2006-01-02T15:04:05Z07:00"

  const JsonContentType := SetHeader("Content-Type", "application/json")

  /** url.Values.Get: the first value given for the key, or "" when there is none. */
  function QueryGet(query: map<string, seq<string>>, key: string): (v: string)
    ensures key !in query ==> v == ""
    ensures key in query && |query[key]| > 0 ==> v == query[key][0]
    ensures key in query && |query[key]| == 0 ==> v == ""
  {
    if key in query && |query[key]| > 0 then query[key][0] else ""
  }

  /*
   * POST /subscriptions
   */

  /**
   * The create data postSubscription builds from a decoded body: the parsed
   * user id and start time, the service name, and the price narrowed to
   * int32. The end date is never set.
   */
  function CreateData(req: CreateSubscriptionDTO, userId: Uuid, startDate: Time): (data: CreateSubscriptionData)
    ensures data.userId == userId && data.serviceName == req.serviceName && data.startDate == startDate
    ensures data.price == WrapToInt32(req.price)
    ensures IsZero(data.endDate)
  {
    CreateSubscriptionData(userId, req.serviceName, WrapToInt32(req.price), startDate, ZeroTime)
  }

  /**
   * postSubscription's validation: the decoded body, its user_id parsed as a
   * UUID, and time.Parse called as written, with the request's start date as
   * the layout and the RFC 3339 layout as the value. None means 400.
   */
  function PostInput(lib: Library, body: Option<CreateSubscriptionDTO>): (data: Option<CreateSubscriptionData>)
    ensures data.Some? <==>
      && body.Some?
      && lib.parseUuid(body.value.userId).Some?
      && lib.parseTime(body.value.startDate, RFC3339).Some?
    ensures data.Some? ==>
      data.value == CreateData(body.value, lib.parseUuid(body.value.userId).value,
                               lib.parseTime(body.value.startDate, RFC3339).value)
  {
    if body.None? then None
    else
      var req := body.value;
      var userId := lib.parseUuid(req.userId);
      if userId.None? then None
      else
        var startDate := lib.parseTime(req.startDate, RFC3339);
        if startDate.None? then None
        else Some(CreateData(req, userId.value, startDate.value))
  }

  /**
   * postSubscription. `body` is the outcome of decoding the request body and
   * `encodeOk` whether encoding the response succeeded. A request that fails
   * validation gets 400 alone, whatever the service would have answered.
   * After a successful create the id is written as the body and then
   * WriteHeader(201) is called.
   */
  function PostSubscription(
    lib: Library, body: Option<CreateSubscriptionDTO>,
    create: CreateSubscriptionData -> Ret<Uuid>, encodeOk: bool): (w: seq<Write>)
    ensures PostInput(lib, body).None? ==> w == [WriteHeader(StatusBadRequest)]
    ensures Status(w) == Some(StatusBadRequest) <==> PostInput(lib, body).None?
    ensures PostInput(lib, body).Some? ==>
      var res := create(PostInput(lib, body).value);
      && (res.err.Some? ==> w == HandleError(res.err.value))
      && (res.err.None? && encodeOk ==> Bodies(w) == [JsonId(res.value)] && w[|w| - 1] == WriteHeader(StatusCreated))
      && (res.err.None? && !encodeOk ==> Bodies(w) == [] && Status(w) == Some(StatusInternalServerError))
  {
    var data := PostInput(lib, body);
    if data.None? then [WriteHeader(StatusBadRequest)]
    else
      var res := create(data.value);
      if res.err.Some? then HandleError(res.err.value)
      else if encodeOk then
        var w := [JsonContentType, WriteBody(JsonId(res.value)), WriteHeader(StatusCreated)];
        assert Status(w) == Status(w[1..]) == None;
        assert w[2..][1..] == [];
        assert Bodies(w[2..]) == Bodies(w[2..][1..]) == [];
        assert Bodies(w) == Bodies(w[1..]) == [JsonId(res.value)] + Bodies(w[2..]);
        w
      else
        var w := [JsonContentType, WriteHeader(StatusInternalServerError)];
        assert Status(w) == Status(w[1..]) == Some(StatusInternalServerError);
        assert w[2..] == [];
        assert Bodies(w) == Bodies(w[1..]) == Bodies(w[2..]) == [];
        w
  }

  /*
   * DELETE /subscriptions/{id}
   */

  /**
   * deleteSubscription: 400 for a path id that is not a UUID, without the
   * service being consulted; 200 when the service cancels; otherwise
   * handleError's 404 (the service reported ErrNotFound) or 500.
   */
  function DeleteSubscription(lib: Library, pathId: string, cancel: Uuid -> Option<Error>): (w: seq<Write>)
    ensures lib.parseUuid(pathId).None? ==> w == [WriteHeader(StatusBadRequest)]
    ensures Status(w) == Some(StatusBadRequest) <==> lib.parseUuid(pathId).None?
    ensures Status(w) == Some(StatusOK) <==>
      lib.parseUuid(pathId).Some? && cancel(lib.parseUuid(pathId).value).None?
    ensures Status(w) == Some(StatusNotFound) <==>
      lib.parseUuid(pathId).Some? && var e := cancel(lib.parseUuid(pathId).value);
      e.Some? && Is(e.value, NotFound)
    ensures lib.parseUuid(pathId).Some? && cancel(lib.parseUuid(pathId).value).Some? ==>
      w == HandleError(cancel(lib.parseUuid(pathId).value).value)
    ensures Status(w) in {Some(StatusBadRequest), Some(StatusOK), Some(StatusNotFound), Some(StatusInternalServerError)}
  {
    var id := lib.parseUuid(pathId);
    if id.None? then [WriteHeader(StatusBadRequest)]
    else
      var err := cancel(id.value);
      if err.Some? then HandleError(err.value)
      else [WriteHeader(StatusOK)]
  }

  /*
   * GET /subscriptions
   */

  /** The filter getSubscriptions passes on: user and service name only, no dates. */
  function QueryFilter(userId: Uuid, serviceName: string): (filter: GetSubscriptionsFilter)
    ensures filter.userId == userId && filter.serviceName == serviceName
    ensures IsZero(filter.startDate) && IsZero(filter.endDate)
  {
    GetSubscriptionsFilter(userId, serviceName, ZeroTime, ZeroTime)
  }

  /** The read DTO for one subscription; the end date is left empty. */
  function ReadDTOOf(lib: Library, sub: Subscription): (dto: ReadDTO)
    ensures dto.id == lib.uuidString(sub.id) && dto.userId == lib.uuidString(sub.userId)
    ensures dto.serviceName == sub.serviceName && dto.price as int == sub.price as int
    ensures dto.startDate == lib.formatTime(sub.startDate, RFC3339) && dto.endDate == ""
  {
    ReadDTO(lib.uuidString(sub.id), lib.uuidString(sub.userId), sub.serviceName,
            sub.price as int as int64, lib.formatTime(sub.startDate, RFC3339), "")
  }

  /** The DTO list for a list of subscriptions: same length, same order, item by item. */
  ghost predicate IsReadDTOList(lib: Library, subs: seq<Subscription>, dtos: seq<ReadDTO>) {
    |dtos| == |subs| && forall i :: 0 <= i < |subs| ==> dtos[i] == ReadDTOOf(lib, subs[i])
  }

  /**
   * getSubscriptions. 400 when user_id is missing or not a UUID, before the
   * service is consulted; handleError's answer when the service fails;
   * otherwise the subscriptions as read DTOs, one per subscription, in the
   * service's order, with no explicit status.
   */
  method GetSubscriptions(
    lib: Library, query: map<string, seq<string>>,
    list: GetSubscriptionsFilter -> Ret<seq<Subscription>>, encodeOk: bool) returns (w: seq<Write>)
    ensures lib.parseUuid(QueryGet(query, "user_id")).None? ==> w == [WriteHeader(StatusBadRequest)]
    ensures "user_id" !in query && lib.parseUuid("").None? ==> w == [WriteHeader(StatusBadRequest)]
    ensures lib.parseUuid(QueryGet(query, "user_id")).Some? ==>
      var res := list(QueryFilter(lib.parseUuid(QueryGet(query, "user_id")).value, QueryGet(query, "service_name")));
      && (res.err.Some? ==> w == HandleError(res.err.value))
      && (res.err.None? && encodeOk ==>
            Status(w) == None && |Bodies(w)| == 1 && Bodies(w)[0].JsonReadList?
            && IsReadDTOList(lib, res.value, Bodies(w)[0].items))
      && (res.err.None? && !encodeOk ==> Bodies(w) == [] && Status(w) == Some(StatusInternalServerError))
  {
    var serviceName := QueryGet(query, "service_name");
    var userIdStr := QueryGet(query, "user_id");

    var userId := lib.parseUuid(userIdStr);
    if userId.None? {
      return [WriteHeader(StatusBadRequest)];
    }

    var filter := QueryFilter(userId.value, serviceName);
    var res := list(filter);
    if res.err.Some? {
      return HandleError(res.err.value);
    }
    var subscriptions := res.value;

    var result: seq<ReadDTO> := [];
    var i := 0;
    while i < |subscriptions|
      invariant 0 <= i <= |subscriptions|
      invariant IsReadDTOList(lib, subscriptions[..i], result)
    {
      result := result + [ReadDTOOf(lib, subscriptions[i])];
      i := i + 1;
    }
    assert subscriptions[..i] == subscriptions;

    if encodeOk {
      w := [JsonContentType, WriteBody(JsonReadList(result))];
      assert Status(w) == Status(w[1..]) == None;
      assert w[2..] == [];
      assert Bodies(w) == Bodies(w[1..]) == [JsonReadList(result)] + Bodies(w[2..]);
    } else {
      w := [JsonContentType, WriteHeader(StatusInternalServerError)];
      assert Status(w) == Status(w[1..]) == Some(StatusInternalServerError);
      assert w[2..] == [];
      assert Bodies(w) == Bodies(w[1..]) == Bodies(w[2..]) == [];
    }
  }
}
