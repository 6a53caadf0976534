/** `POST /api/queries` (server.js): the contact-query validator and the
    values it stores. */
module Queries {
  import opened Basics
  import opened Text

  /** The request body; `None` is an absent or `null` field. */
  datatype QueryBody = QueryBody(name: Option<string>, email: Option<string>, phone: Option<string>, message: Option<string>)

  /** A row of the `queries` table. */
  datatype StoredQuery = StoredQuery(name: string, email: string, phone: Option<string>, message: string)

  datatype QueryOutcome = BadRequest | Created(query: StoredQuery)

  /** JavaScript truthiness of an optional string field. */
  predicate Present(x: Option<string>)
  {
    x.Some? && x.value != ""
  }

  /** `element?.value.trim()` on a form field: `None` when the element is
      missing, the trimmed text otherwise. */
  function TrimField(x: Option<string>): (r: Option<string>)
    ensures r.None? <==> x.None?
    ensures r.Some? ==> r.value == Trim(x.value)
  {
    if x.None? then None else Some(Trim(x.value))
  }

  /** The handler: 400 unless name, email and message are present, checked
      before trimming; the stored text is trimmed and an absent or empty phone
      is stored as `null`. */
  function SubmitQuery(body: QueryBody): (r: QueryOutcome)
    ensures r.BadRequest? <==> !Present(body.name) || !Present(body.email) || !Present(body.message)
    ensures r.Created? ==> r.query.name == Trim(body.name.value) && r.query.email == Trim(body.email.value)
                           && r.query.message == Trim(body.message.value)
    ensures r.Created? ==> IsTrimmed(r.query.name) && IsTrimmed(r.query.email) && IsTrimmed(r.query.message)
    ensures r.Created? ==> (r.query.phone.None? <==> !Present(body.phone))
    ensures r.Created? && Present(body.phone) ==> r.query.phone == Some(Trim(body.phone.value))
  {
    if !Present(body.name) || !Present(body.email) || !Present(body.message) then BadRequest
    else
      Created(StoredQuery(Trim(body.name.value), Trim(body.email.value),
                          if Present(body.phone) then Some(Trim(body.phone.value)) else None,
                          Trim(body.message.value)))
  }

  /** A body whose name, email and phone are already trimmed is stored as
      sent, with only the message trimmed and an empty phone dropped. */
  lemma StoredAsSent(b: QueryBody)
    requires Present(b.name) && Present(b.email) && Present(b.message)
    requires Trim(b.name.value) == b.name.value && Trim(b.email.value) == b.email.value
    requires b.phone.Some? ==> Trim(b.phone.value) == b.phone.value
    ensures SubmitQuery(b) == Created(StoredQuery(b.name.value, b.email.value, if Present(b.phone) then b.phone else None,
                                                  Trim(b.message.value)))
  {
  }

  /** The check runs before trimming: a whitespace-only name passes and is
      stored empty. */
  lemma BlankNameStoredEmpty(email: string, message: string)
    requires email != "" && message != ""
    ensures SubmitQuery(QueryBody(Some(" "), Some(email), None, Some(message))).Created?
    ensures SubmitQuery(QueryBody(Some(" "), Some(email), None, Some(message))).query.name == ""
  {
    assert IsSpace(' ');
  }

  /** Re-submitting what was stored stores the same row again, unless a
      field was trimmed to nothing (a blank phone would come back `null`). */
  lemma ResubmitStable(body: QueryBody)
    requires SubmitQuery(body).Created?
    ensures var q := SubmitQuery(body).query;
            q.name != "" && q.email != "" && q.message != "" && q.phone != Some("")
            ==> SubmitQuery(QueryBody(Some(q.name), Some(q.email), q.phone, Some(q.message))) == Created(q)
  {
    TrimIdempotent(body.name.value);
    TrimIdempotent(body.email.value);
    TrimIdempotent(body.message.value);
    if Present(body.phone) {
      TrimIdempotent(body.phone.value);
    }
  }

  // ---------------------------------------------------------------------
  // The client call both contact forms make

  /** The names the client module `public/js/api.js` exports. */
  const ApiJsExports: set<string> :=
    {"getProducts", "getProductById", "getBrands", "getBrandByName", "getShopLogo", "createOrder",
     "adminLogin", "adminLogout", "isAdminAuthenticated", "getOrders", "getOrderById", "updateOrderStatus",
     "deleteOrder", "createProduct", "updateProduct", "deleteProduct", "createBrand", "updateBrand",
     "deleteBrand", "setShopLogo"}

  /** The function the forms call on that module. */
  const CreateQuery: string := "createQuery"

  /** The module with the call the forms expect, a `POST /api/queries`
      through `apiCall` like its `createOrder`. */
  const IntendedExports: set<string> := ApiJsExports + {CreateQuery}

  /** `await api.createQuery(body)`: the request that reaches the server, if
      any, and the row it returns; `stored` is `None` when the call throws. */
  datatype Call = Call(request: Option<QueryBody>, stored: Option<StoredQuery>)

  /** Without the export `api.createQuery` is `undefined`, and calling it
      throws a TypeError before any request is made. With it, the body is
      posted, and `apiCall` throws on the 400 answer and returns the row on
      201. */
  function CallCreateQuery(exports: set<string>, body: QueryBody): (r: Call)
    ensures CreateQuery !in exports ==> r.request.None? && r.stored.None?
    ensures CreateQuery in exports ==> r.request == Some(body)
    ensures r.stored.Some? <==> CreateQuery in exports && SubmitQuery(body).Created?
    ensures r.stored.Some? ==> SubmitQuery(body) == Created(r.stored.value)
  {
    if CreateQuery !in exports then Call(None, None)
    else match SubmitQuery(body)
      case BadRequest => Call(Some(body), None)
      case Created(q) => Call(Some(body), Some(q))
  }

  /** The client module has no `createQuery`; the intended one has. */
  lemma CreateQueryMissing()
    ensures CreateQuery !in ApiJsExports && CreateQuery in IntendedExports
  {
    assert CreateQuery[6] == 'Q';
  }

  /** The status line a form shows, and whether it is styled as an error. */
  datatype Status = Status(text: string, isError: bool)

  const TryAgain: string := "Something went wrong. Please try again."

  /** What one submit does: the status it ends on, the request that reaches
      the server and the row stored. */
  datatype Submit = Submit(status: Status, request: Option<QueryBody>, stored: Option<StoredQuery>)

  /** A check failing before the call: its error status, and no request. */
  function Refuse(text: string): (r: Submit)
    ensures r.status.isError && r.request.None? && r.stored.None?
  {
    Submit(Status(text, true), None, None)
  }

  /** The `try`/`catch` around the call: the thanks on success, "Something
      went wrong" as an error whenever the call throws. */
  function TryCall(exports: set<string>, body: QueryBody, thanks: string): (r: Submit)
    ensures var c := CallCreateQuery(exports, body);
            r.request == c.request && r.stored == c.stored
    ensures r.status == if r.stored.Some? then Status(thanks, false) else Status(TryAgain, true)
  {
    var c := CallCreateQuery(exports, body);
    Submit(if c.stored.Some? then Status(thanks, false) else Status(TryAgain, true), c.request, c.stored)
  }
}
