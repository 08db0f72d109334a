/**
 * The user-administration requests: the query string of the user list (five
 * optional parameters in a fixed order, each sent only when truthy), the two
 * shapes of the list response, and the paths of the by-id and status requests.
 * Percent-encoding by `URLSearchParams` is not modelled: keys and values are
 * written as they are.
 */
module AdminService {
  import opened Wrappers
  import opened Domain
  import Text

  /** A value in a parameter object: a number, a string, or `undefined` (a key present with no value). */
  datatype ParamValue = Num(n: int) | Str(s: string) | Undefined

  /** `PaginationParams` and the slice's `filters`: an object from keys to values. */
  type PaginationParams = map<string, ParamValue>

  /** `params?.key`: the value, or `undefined` when the key is absent. */
  function Lookup(params: PaginationParams, key: string): ParamValue {
    if key in params then params[key] else Undefined
  }

  /** JavaScript truthiness of a value: 0, the empty string and `undefined` are falsy. */
  predicate Truthy(v: ParamValue) {
    match v
    case Num(n) => n != 0
    case Str(s) => s != ""
    case Undefined => false
  }

  /** The text `append` stores for a value (`toString()` of a number, a string as it is). */
  function Render(v: ParamValue): string {
    match v
    case Num(n) => Text.IntToString(n)
    case Str(s) => s
    case Undefined => "undefined"
  }

  /** One `key=value` pair of the query. */
  datatype QueryParam = QueryParam(key: string, value: string)

  /** The order in which the five parameters are appended. */
  const QueryOrder: seq<string> := ["page", "limit", "status", "role", "search"]

  /** Position of a parameter key in `QueryOrder`; any other key ranks after all of them. */
  function Rank(key: string): (r: nat)
    ensures key in QueryOrder ==> r < |QueryOrder| && QueryOrder[r] == key
    ensures key !in QueryOrder ==> r == |QueryOrder|
  {
    if key == "page" then 0
    else if key == "limit" then 1
    else if key == "status" then 2
    else if key == "role" then 3
    else if key == "search" then 4
    else 5
  }

  /** The pair sent for `key` when its value is truthy. */
  function Param(params: PaginationParams, key: string): QueryParam {
    QueryParam(key, Render(Lookup(params, key)))
  }

  /** The pairs for the truthy parameters among `keys`, in the order of `keys`. */
  function Included(params: PaginationParams, keys: seq<string>): seq<QueryParam>
  {
    if keys == [] then []
    else
      var k := keys[|keys| - 1];
      Included(params, keys[..|keys| - 1]) + (if Truthy(Lookup(params, k)) then [Param(params, k)] else [])
  }

  /** Every pair is for a truthy parameter among the first `n` keys, with its rendered value. */
  ghost predicate SoundUpTo(params: PaginationParams, query: seq<QueryParam>, n: nat) {
    forall i :: 0 <= i < |query| ==>
      query[i].key in QueryOrder && Rank(query[i].key) < n
      && Truthy(Lookup(params, query[i].key)) && query[i] == Param(params, query[i].key)
  }

  /** Every truthy parameter among the first `n` keys has its pair. */
  ghost predicate CompleteUpTo(params: PaginationParams, query: seq<QueryParam>, n: nat) {
    forall k :: k in QueryOrder && Rank(k) < n && Truthy(Lookup(params, k)) ==> Param(params, k) in query
  }

  /** The pairs come in the order of their keys in `QueryOrder`. */
  ghost predicate InQueryOrder(query: seq<QueryParam>) {
    forall i, j :: 0 <= i < j < |query| ==> Rank(query[i].key) < Rank(query[j].key)
  }

  /**
   * Over the first `n` parameter keys, `Included` holds exactly the truthy ones,
   * each with its rendered value, in the fixed order.
   */
  lemma {:induction false} IncludedSpec(params: PaginationParams, n: nat)
    requires n <= |QueryOrder|
    ensures SoundUpTo(params, Included(params, QueryOrder[..n]), n)
    ensures CompleteUpTo(params, Included(params, QueryOrder[..n]), n)
    ensures InQueryOrder(Included(params, QueryOrder[..n]))
  {
    if n > 0 {
      IncludedSpec(params, n - 1);
      var k := QueryOrder[n - 1];
      assert QueryOrder[..n][..n - 1] == QueryOrder[..n - 1];
      assert QueryOrder[..n][n - 1] == k;
      assert Rank(k) == n - 1;
      var prev := Included(params, QueryOrder[..n - 1]);
      var query := Included(params, QueryOrder[..n]);
      assert query == prev + (if Truthy(Lookup(params, k)) then [Param(params, k)] else []);
      assert SoundUpTo(params, prev, n - 1);
      forall i | 0 <= i < |query|
        ensures query[i].key in QueryOrder && Rank(query[i].key) < n
        ensures Truthy(Lookup(params, query[i].key)) && query[i] == Param(params, query[i].key)
      {
        if i < |prev| {
          assert query[i] == prev[i];
        } else {
          assert query[i] == Param(params, k) && query[i].key == k;
        }
      }
      forall key | key in QueryOrder && Rank(key) < n && Truthy(Lookup(params, key))
        ensures Param(params, key) in query
      {
        if Rank(key) < n - 1 {
          assert Param(params, key) in prev;
        } else {
          assert key == k && query[|prev|] == Param(params, k);
        }
      }
      forall i, j | 0 <= i < j < |query|
        ensures Rank(query[i].key) < Rank(query[j].key)
      {
        assert query[i] == prev[i];
        if j < |prev| {
          assert query[j] == prev[j];
        } else {
          assert query[j].key == k;
        }
      }
    }
  }

  /**
   * The five `if (params?.x) queryParams.append('x', ...)` steps of `getAllUsers`:
   * exactly the truthy parameters, each with its rendered value, in the fixed order.
   */
  method BuildQuery(params: PaginationParams) returns (query: seq<QueryParam>)
    ensures query == Included(params, QueryOrder)
    ensures forall i :: 0 <= i < |query| ==>
      query[i].key in QueryOrder && Truthy(Lookup(params, query[i].key)) && query[i] == Param(params, query[i].key)
    ensures forall k :: k in QueryOrder && Truthy(Lookup(params, k)) ==> Param(params, k) in query
    ensures forall i, j :: 0 <= i < j < |query| ==> Rank(query[i].key) < Rank(query[j].key)
  {
    query := [];
    assert query == Included(params, QueryOrder[..0]);
    if Truthy(Lookup(params, "page")) {
      query := query + [Param(params, "page")];
    }
    assert QueryOrder[..1][..0] == QueryOrder[..0];
    assert query == Included(params, QueryOrder[..1]);
    if Truthy(Lookup(params, "limit")) {
      query := query + [Param(params, "limit")];
    }
    assert QueryOrder[..2][..1] == QueryOrder[..1];
    assert query == Included(params, QueryOrder[..2]);
    if Truthy(Lookup(params, "status")) {
      query := query + [Param(params, "status")];
    }
    assert QueryOrder[..3][..2] == QueryOrder[..2];
    assert query == Included(params, QueryOrder[..3]);
    if Truthy(Lookup(params, "role")) {
      query := query + [Param(params, "role")];
    }
    assert QueryOrder[..4][..3] == QueryOrder[..3];
    assert query == Included(params, QueryOrder[..4]);
    if Truthy(Lookup(params, "search")) {
      query := query + [Param(params, "search")];
    }
    assert QueryOrder[..5][..4] == QueryOrder[..4];
    assert QueryOrder[..5] == QueryOrder;
    assert query == Included(params, QueryOrder);
    IncludedSpec(params, 5);
  }

  /** `queryParams.toString()` without percent-encoding: `k=v` pairs joined by `&`. */
  function EncodeQuery(query: seq<QueryParam>): (s: string)
    ensures s == "" <==> query == []
  {
    if query == [] then ""
    else if |query| == 1 then query[0].key + "=" + query[0].value
    else query[0].key + "=" + query[0].value + "&" + EncodeQuery(query[1..])
  }

  /** The list URL: `/admin/users`, followed by `?` and the query only when the query string is non-empty. */
  function UsersUrl(query: seq<QueryParam>): (url: string)
  {
    var queryString := EncodeQuery(query);
    "/admin/users" + (if queryString != "" then "?" + queryString else "")
  }

  /** The bare path is requested exactly when no parameter was included; otherwise `?` and the pairs follow it. */
  lemma UsersUrlShape(query: seq<QueryParam>)
    ensures UsersUrl(query) == "/admin/users" <==> query == []
    ensures query != [] ==> UsersUrl(query) == "/admin/users?" + EncodeQuery(query)
  {
    if query != [] {
      assert |UsersUrl(query)| > |"/admin/users"|;
    }
  }

  /**
   * The request URL of `getAllUsers`: the list path with the query of the
   * truthy parameters; the bare path exactly when every one of the five
   * parameters is falsy, and otherwise `?` and the encoded pairs follow it.
   */
  method UsersRequestUrl(params: PaginationParams) returns (url: string)
    ensures url == UsersUrl(Included(params, QueryOrder))
    ensures url == "/admin/users" <==> forall k :: k in QueryOrder ==> !Truthy(Lookup(params, k))
    ensures url != "/admin/users" ==> url == "/admin/users?" + EncodeQuery(Included(params, QueryOrder))
  {
    var query := BuildQuery(params);
    UsersUrlShape(query);
    url := UsersUrl(query);
    if !(forall k :: k in QueryOrder ==> !Truthy(Lookup(params, k))) {
      var k :| k in QueryOrder && Truthy(Lookup(params, k));
      assert Param(params, k) in query;
    }
  }

  /** The list response body as the server sends it; `success` is false when the field is missing. */
  datatype UsersBody = UsersBody(success: bool, data: seq<User>, pagination: Option<Pagination>, message: Option<string>)

  /** What `getAllUsers` returns: a re-built `{data, pagination}`, or the body as it was sent. */
  datatype UserPage =
    | Unwrapped(data: seq<User>, pagination: Option<Pagination>)
    | AsSent(success: bool, data: seq<User>, pagination: Option<Pagination>, message: Option<string>)

  /** The response normalisation: a body with a truthy `success` is unwrapped, any other body is returned unchanged. */
  function UnwrapUsers(body: UsersBody): (page: UserPage)
    ensures page.data == body.data && page.pagination == body.pagination
    ensures page.Unwrapped? <==> body.success
    ensures !body.success ==> page == AsSent(body.success, body.data, body.pagination, body.message)
  {
    if body.success then Unwrapped(body.data, body.pagination)
    else AsSent(body.success, body.data, body.pagination, body.message)
  }

  /** `getUserById`: GET on `/admin/users/{id}`; the path ends with the id. */
  function UserPath(id: string): (path: string)
    ensures |path| > |id| && path[|path| - |id|..] == id
  {
    "/admin/users/" + id
  }

  /** `updateUserStatus`: PUT on `/admin/users/{id}/status`, the user's own path extended by `/status`. */
  function StatusPath(id: string): (path: string)
    ensures path == UserPath(id) + "/status"
  {
    "/admin/users/" + id + "/status"
  }

  /** The body of a status update: `{ status }`. */
  datatype StatusBody = StatusBody(status: string)

  /** The PUT of a status update, as path and body. */
  datatype StatusRequest = StatusRequest(path: string, body: StatusBody)

  /** `updateUserStatus`: a PUT below the user's own path carrying the new status. */
  function StatusUpdate(id: string, status: string): (req: StatusRequest)
    ensures req.path == UserPath(id) + "/status" && req.body.status == status
  {
    StatusRequest(StatusPath(id), StatusBody(status))
  }

  /** Different user ids give different paths, for both requests, and the status path extends the user path. */
  lemma PathsIdentifyUser(a: string, b: string)
    ensures UserPath(a) == UserPath(b) <==> a == b
    ensures StatusPath(a) == StatusPath(b) <==> a == b
    ensures StatusPath(a) == UserPath(a) + "/status"
  {
    var p := "/admin/users/";
    if UserPath(a) == UserPath(b) {
      assert a == UserPath(a)[|p|..] == UserPath(b)[|p|..] == b;
    }
    if StatusPath(a) == StatusPath(b) {
      assert |a| == |b|;
      assert a == StatusPath(a)[|p|..|p| + |a|] == StatusPath(b)[|p|..|p| + |b|] == b;
    }
  }
}
