/** internal/controller/dto.go: the JSON shapes the handlers read and write. */
module Dto {
  import opened Entity

  /** Body of POST /subscriptions. */
  datatype CreateSubscriptionDTO = CreateSubscriptionDTO(
    userId: string,
    serviceName: string,
    price: int64,
    startDate: string,
    endDate: string)

  /** One item of the GET /subscriptions response. */
  datatype ReadDTO = ReadDTO(
    id: string,
    userId: string,
    serviceName: string,
    price: int64,
    startDate: string,
    endDate: string)
}
