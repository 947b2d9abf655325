/**
 An order record as the loader holds it. Every field may be missing: a JSON
 record may omit it or hold null, and a CSV file may lack the column. Missing,
 null and NaN are all represented by None.
 */
module Records {
  import opened Wrappers

  datatype Record = Record(
    orderId: Option<int>,
    date: Option<string>,
    time: Option<string>,
    itemName: Option<string>,
    itemType: Option<string>,
    transactionAmount: Option<real>,
    orderType: Option<string>,
    customerId: Option<string>,
    tasteRating: Option<int>,
    deliverySpeedRating: Option<int>,
    environmentRating: Option<int>,
    serviceRating: Option<int>)

  /** The `order_type` value of a delivery order ("takeaway"). */
  const Delivery: string := "外卖"

  /**
   Domain convention of the dataset, not enforced by the parser: a delivery order
   has no environment rating.
   */
  predicate FollowsRatingConvention(r: Record)
  {
    r.orderType == Some(Delivery) ==> r.environmentRating.None?
  }

  /** The built-in record set used when neither data file can be fetched. */
  function DefaultData(): (d: seq<Record>)
    ensures |d| == 1
    ensures d[0].orderId == Some(1) && d[0].orderType == Some(Delivery)
    ensures d[0].transactionAmount == Some(35.0)
    ensures FollowsRatingConvention(d[0])
  {
    [Record(
      orderId := Some(1),
      date := Some("03-13-2022"),
      time := Some("21:04"),
      itemName := Some("干煸豆角"),
      itemType := Some("主食"),
      transactionAmount := Some(35.0),
      orderType := Some(Delivery),
      customerId := Some("CUST_19833"),
      tasteRating := Some(5),
      deliverySpeedRating := Some(5),
      environmentRating := None,
      serviceRating := None)]
  }
}
