/** What ties the client to the server: the id a login saves is the id the server reads from each request. */
module EndToEnd {
  import opened Common
  import opened Decimal
  import opened Json
  import opened Api
  import opened App
  import opened Handlers

  /**
   * A login whose body carries a positive numeric `id` that fits in 64 bits stores it; every later request
   * carries it in `X-User-ID`, and `getUserIdFromRequest` reads back exactly that id, whatever the query says.
   */
  lemma LoginIdReachesServer(
    items: map<string, string>, data: Value, now: int, headers: map<string, string>, query: string, n: int)
    requires data.JObj? && Property(data, "id") == Some(JNum(n)) && 0 < n <= Int64Max
    ensures var h := RequestHeaders(headers, Login(items, data, now).items);
      "X-User-ID" in h && h["X-User-ID"] == IntToString(n) && UserIdFromRequest(h["X-User-ID"], query) == n
  {
    var s := Login(items, data, now);
    SavedUserId(data);
    NumericIdHeader(headers, s.items, SavedUser(data), n);
    UserIdRoundTrip(n, query);
  }
}
