/**
 * Records of internal/entity/subscription.go, together with the Go value
 * types they are built from: fixed-width integers, UUIDs and time.Time.
 */
module Entity {

  /** Go's int32, the type of Subscription.Price. */
  newtype int32 = x: int | -0x8000_0000 <= x < 0x8000_0000

  /** Go's int on a 64-bit platform, the type of the JSON price and of RowsAffected. */
  newtype int64 = x: int | -0x8000_0000_0000_0000 <= x < 0x8000_0000_0000_0000

  /** A 128-bit UUID; the all-zero one is uuid.Nil. */
  datatype Uuid = Uuid(bits: bv128)

  const Nil: Uuid := Uuid(0)

  type Month = m: int | 1 <= m <= 12 witness 1

  /**
   * A time.Time at month granularity: the first instant (day 1, 00:00 UTC) of
   * `month` in `year`. Go's zero time is January of year 1.
   */
  datatype Time = Time(year: int, month: Month)

  const ZeroTime: Time := Time(1, 1)

  predicate IsZero(t: Time) {
    t == ZeroTime
  }

  /** t.After(u): t is a strictly later instant than u, i.e. later by (year, month). */
  predicate After(t: Time, u: Time) {
    t.year > u.year || (t.year == u.year && t.month > u.month)
  }

  /** t.Before(u): t is a strictly earlier instant than u. */
  predicate Before(t: Time, u: Time) {
    t.year < u.year || (t.year == u.year && t.month < u.month)
  }

  /** Go's conversion int32(x) of a 64-bit int: keeps the low 32 bits, two's complement. */
  function WrapToInt32(x: int64): (r: int32)
    ensures -0x8000_0000 <= x as int < 0x8000_0000 ==> r as int == x as int
    ensures (x as int - r as int) % 0x1_0000_0000 == 0
  {
    var low := (x as int) % 0x1_0000_0000;
    if low < 0x8000_0000 then low as int32 else (low - 0x1_0000_0000) as int32
  }

  /** entity.Subscription */
  datatype Subscription = Subscription(
    id: Uuid,
    userId: Uuid,
    serviceName: string,
    price: int32,
    startDate: Time,
    endDate: Time)

  /** entity.CreateSubscriptionData */
  datatype CreateSubscriptionData = CreateSubscriptionData(
    userId: Uuid,
    serviceName: string,
    price: int32,
    startDate: Time,
    endDate: Time)

  /** entity.GetSubscriptionsFilter; an empty/nil/zero field means "no constraint". */
  datatype GetSubscriptionsFilter = GetSubscriptionsFilter(
    userId: Uuid,
    serviceName: string,
    startDate: Time,
    endDate: Time)
}
