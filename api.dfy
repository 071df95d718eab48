/**
 * The client's API layer: reading the user id back from storage, the headers every request gets, and the
 * teardown of the session when the server answers 401.
 */
module Api {
  import opened Common
  import opened Decimal
  import opened Json
  import opened Storage

  /**
   * `getUserId`: `user.id || user.ID` for the user stored under 'user'. A missing or empty entry, text that
   * does not parse, and a stored `null` (whose property access throws and is caught) all give `null`.
   */
  function GetUserId(items: map<string, string>): (r: Option<Value>)
    ensures !HasTruthy(items, "user") ==> r.None?
    ensures HasTruthy(items, "user") && Parse(items["user"]).None? ==> r.None?
    ensures HasTruthy(items, "user") && Parse(items["user"]) == Some(JNull) ==> r.None?
    ensures r.Some? ==>
      HasTruthy(items, "user") && Parse(items["user"]).Some? && Parse(items["user"]).value.JObj?
    ensures r.Some? ==> var ms := Parse(items["user"]).value.members;
      if TruthyOpt(Get(ms, "id")) then r == Get(ms, "id") else r == Get(ms, "ID")
  {
    if !HasTruthy(items, "user") then None
    else
      match Parse(items["user"])
      case None => None
      case Some(user) =>
        if user.JNull? then None else Or(Property(user, "id"), Property(user, "ID"))
  }

  /** A stored user object yields its `id` when that is truthy and its `ID` otherwise. */
  lemma GetUserIdOfStored(items: map<string, string>, user: Object)
    requires "user" in items && items["user"] == Stringify(JObj(user))
    ensures GetUserId(items) == Or(Get(user, "id"), Get(user, "ID"))
  {
    ParseStringify(JObj(user));
  }

  /**
   * The request interceptor's headers: `Authorization: Bearer <token>` when a token is stored, `X-User-ID`
   * with the id's text when the id is truthy, and every other header as it was.
   */
  function RequestHeaders(headers: map<string, string>, items: map<string, string>): (h: map<string, string>)
    ensures HasTruthy(items, "token") ==> "Authorization" in h && h["Authorization"] == "Bearer " + items["token"]
    ensures !HasTruthy(items, "token") ==>
      ("Authorization" in h <==> "Authorization" in headers) &&
      ("Authorization" in h ==> h["Authorization"] == headers["Authorization"])
    ensures TruthyOpt(GetUserId(items)) ==> "X-User-ID" in h && h["X-User-ID"] == ToJsString(GetUserId(items).value)
    ensures !TruthyOpt(GetUserId(items)) ==>
      ("X-User-ID" in h <==> "X-User-ID" in headers) &&
      ("X-User-ID" in h ==> h["X-User-ID"] == headers["X-User-ID"])
    ensures forall k :: k != "Authorization" && k != "X-User-ID" ==>
      (k in h <==> k in headers) && (k in h ==> h[k] == headers[k])
  {
    var withToken := if HasTruthy(items, "token") then headers["Authorization" := "Bearer " + items["token"]]
                     else headers;
    var id := GetUserId(items);
    if TruthyOpt(id) then withToken["X-User-ID" := ToJsString(id.value)] else withToken
  }

  /** With neither a token nor a user id stored, the interceptor leaves the headers exactly as they were. */
  lemma RequestHeadersNoSession(headers: map<string, string>, items: map<string, string>)
    requires "token" !in items && "user" !in items
    ensures RequestHeaders(headers, items) == headers
  {
  }

  /** A positive numeric id reaches the server as its decimal numeral. */
  lemma NumericIdHeader(headers: map<string, string>, items: map<string, string>, user: Object, n: int)
    requires "user" in items && items["user"] == Stringify(JObj(user))
    requires Get(user, "id") == Some(JNum(n)) && n != 0
    ensures var h := RequestHeaders(headers, items); "X-User-ID" in h && h["X-User-ID"] == IntToString(n)
  {
    GetUserIdOfStored(items, user);
  }

  /** The headers of one outgoing request, changed in place. */
  class RequestConfig {
    var headers: map<string, string>

    constructor(headers: map<string, string>)
      ensures this.headers == headers
    {
      this.headers := headers;
    }
  }

  /** The request interceptor: sets the two headers on `config` from what `store` holds. */
  method InterceptRequest(config: RequestConfig, store: LocalStorage)
    modifies config
    ensures config.headers == RequestHeaders(old(config.headers), store.items)
  {
    var token := store.GetItem("token");
    var userId := GetUserId(store.items);
    if token.Some? && token.value != "" {
      config.headers := config.headers["Authorization" := "Bearer " + token.value];
    }
    if TruthyOpt(userId) {
      config.headers := config.headers["X-User-ID" := ToJsString(userId.value)];
    }
  }

  /** The session keys the 401 teardown removes: what storage keeps after it. */
  function WithoutSession(items: map<string, string>): (r: map<string, string>)
    ensures "token" !in r && "user" !in r
    ensures forall k :: k != "token" && k != "user" ==> (k in r <==> k in items) && (k in r ==> r[k] == items[k])
  {
    items - {"token", "user"}
  }

  /** After the teardown no user id can be read back, so later requests carry neither session header. */
  lemma TeardownClearsHeaders(headers: map<string, string>, items: map<string, string>)
    ensures GetUserId(WithoutSession(items)).None?
    ensures RequestHeaders(headers, WithoutSession(items)) == headers
  {
  }

  /**
   * The response interceptor's error path: a 401 clears the session keys and sends the browser to
   * "/login" (`redirect`); any other status, or no response at all, leaves storage alone. The error is
   * rejected on every path (`rejected`).
   */
  method HandleResponseError(store: LocalStorage, status: Option<int>) returns (redirect: Option<string>, rejected: bool)
    modifies store
    ensures status == Some(401) ==> store.items == WithoutSession(old(store.items)) && redirect == Some("/login")
    ensures status != Some(401) ==> store.items == old(store.items) && redirect == None
    ensures rejected
  {
    redirect := None;
    if status == Some(401) {
      store.RemoveItem("token");
      store.RemoveItem("user");
      redirect := Some("/login");
    }
    rejected := true;
  }
}
