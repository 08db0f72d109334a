/**
 * The user-administration cache: the current page of users with its
 * pagination block, the user in focus, a loading flag, the last error and the
 * list filters. Four asynchronous operations move it through their pending,
 * fulfilled and rejected cases, and four plain reducers clear the error or the
 * focus and merge or reset the filters. Users are compared on `id`; a created
 * user goes to the front of the list.
 */
module UserManagementSlice {
  import opened Wrappers
  import opened Domain
  import ListOps
  import AsyncThunk
  import opened AdminService

  /** The four asynchronous operations of the slice. */
  datatype Operation = FetchUsers | FetchUserById | UpdateUserStatus | CreateUser

  /** The fixed message each operation rejects with when the server sends none. */
  function Fallback(op: Operation): (m: string)
    ensures m != ""
  {
    match op
    case FetchUsers => "Failed to fetch users"
    case FetchUserById => "Failed to fetch user"
    case UpdateUserStatus => "Failed to update user status"
    case CreateUser => "Failed to create user"
  }

  /** Different operations fall back to different messages. */
  lemma FallbacksDistinct(a: Operation, b: Operation)
    requires a != b
    ensures Fallback(a) != Fallback(b)
  {
  }

  /** A rejected operation always stores a non-empty message. */
  lemma RejectionNeverBlank(op: Operation, serverMessage: Option<string>)
    ensures AsyncThunk.RejectionMessage(serverMessage, Fallback(op)) != ""
  {
  }

  /** The filters of the initial state and of `resetFilters`: page 1, ten per page. */
  function DefaultFilters(): (f: PaginationParams)
    ensures f.Keys == {"page", "limit"}
    ensures Lookup(f, "page") == Num(1) && Lookup(f, "limit") == Num(10)
  {
    map["page" := Num(1), "limit" := Num(10)]
  }

  /**
   * `{ ...filters, ...payload }`: every key of either object, the payload's
   * value where it has one and the old value elsewhere.
   */
  function MergeFilters(filters: PaginationParams, payload: PaginationParams): (r: PaginationParams)
    ensures r.Keys == filters.Keys + payload.Keys
    ensures forall k :: k in payload ==> Lookup(r, k) == payload[k]
    ensures forall k :: k !in payload ==> Lookup(r, k) == Lookup(filters, k)
  {
    filters + payload
  }

  /** Merging the same payload twice is merging it once. */
  lemma MergeIdempotent(filters: PaginationParams, payload: PaginationParams)
    ensures MergeFilters(MergeFilters(filters, payload), payload) == MergeFilters(filters, payload)
  {
  }

  /** Merging the empty object leaves the filters as they are. */
  lemma MergeEmpty(filters: PaginationParams)
    ensures MergeFilters(filters, map[]) == filters
  {
  }

  /** A later merge overrides an earlier one key by key: merging twice is merging the combined payload once. */
  lemma MergeAssociative(filters: PaginationParams, p: PaginationParams, q: PaginationParams)
    ensures MergeFilters(MergeFilters(filters, p), q) == MergeFilters(filters, MergeFilters(p, q))
  {
  }

  /** Of the first two keys, the default filters give both: `page=1` and `limit=10`. */
  lemma DefaultPageAndLimit()
    ensures Included(DefaultFilters(), QueryOrder[..2]) == [QueryParam("page", "1"), QueryParam("limit", "10")]
  {
    var f := DefaultFilters();
    assert Text.IntToString(1) == "1" by { assert Text.DecimalDigits(1) == [Text.Digit(1)]; }
    assert Text.IntToString(10) == "10" by {
      assert Text.DecimalDigits(10) == Text.DecimalDigits(1) + [Text.Digit(0)];
    }
    assert QueryOrder[..1][..0] == [];
    assert Included(f, QueryOrder[..1]) == [QueryParam("page", "1")];
    assert QueryOrder[..2][..1] == QueryOrder[..1];
  }

  /** The default filters request the first page of ten: the query is exactly `page=1&limit=10`. */
  lemma DefaultQuery()
    ensures Included(DefaultFilters(), QueryOrder) == [QueryParam("page", "1"), QueryParam("limit", "10")]
    ensures EncodeQuery(Included(DefaultFilters(), QueryOrder)) == "page=1&limit=10"
  {
    var f := DefaultFilters();
    var query := [QueryParam("page", "1"), QueryParam("limit", "10")];
    DefaultPageAndLimit();
    assert QueryOrder[..3][..2] == QueryOrder[..2];
    assert Included(f, QueryOrder[..3]) == query;
    assert QueryOrder[..4][..3] == QueryOrder[..3];
    assert Included(f, QueryOrder[..4]) == query;
    assert QueryOrder[..5][..4] == QueryOrder[..4];
    assert QueryOrder[..5] == QueryOrder;
  }

  class UserManagementState {
    var users: seq<User>
    var currentUser: Option<User>
    var pagination: Option<Pagination>
    var isLoading: bool
    var error: Option<string>
    var filters: PaginationParams

    /** No two cached users share an `id`. */
    predicate UniqueIds()
      reads this
    {
      ListOps.UniqueKeys(users, UserKey)
    }

    /** The initial state: no users, no focus, no pagination, idle, no error, default filters. */
    constructor ()
      ensures users == [] && currentUser == None && pagination == None
      ensures !isLoading && error == None && filters == DefaultFilters()
      ensures UniqueIds()
    {
      users := [];
      currentUser := None;
      pagination := None;
      isLoading := false;
      error := None;
      filters := DefaultFilters();
    }

    /** `clearError`: only the error is reset. */
    method ClearError()
      modifies this`error
      ensures error == None
      ensures users == old(users) && currentUser == old(currentUser) && pagination == old(pagination)
      ensures isLoading == old(isLoading) && filters == old(filters)
    {
      error := None;
    }

    /** `clearCurrentUser`: only the focus is reset. */
    method ClearCurrentUser()
      modifies this`currentUser
      ensures currentUser == None
      ensures users == old(users) && pagination == old(pagination)
      ensures isLoading == old(isLoading) && error == old(error) && filters == old(filters)
    {
      currentUser := None;
    }

    /** `setFilters`: the payload is merged over the filters; nothing else changes. */
    method SetFilters(payload: PaginationParams)
      modifies this`filters
      ensures filters == MergeFilters(old(filters), payload)
      ensures users == old(users) && currentUser == old(currentUser) && pagination == old(pagination)
      ensures isLoading == old(isLoading) && error == old(error)
    {
      filters := filters + payload;
    }

    /** `resetFilters`: the filters go back to the defaults, whatever they were. */
    method ResetFilters()
      modifies this`filters
      ensures filters == DefaultFilters()
      ensures users == old(users) && currentUser == old(currentUser) && pagination == old(pagination)
      ensures isLoading == old(isLoading) && error == old(error)
    {
      filters := map["page" := Num(1), "limit" := Num(10)];
    }

    /** The pending case, identical for all four operations: loading starts and the error is cleared. */
    method Pending()
      modifies this`isLoading, this`error
      ensures isLoading && error == None
      ensures users == old(users) && currentUser == old(currentUser) && pagination == old(pagination)
      ensures filters == old(filters)
    {
      isLoading := true;
      error := None;
    }

    /** The rejected case, identical for all four operations: loading stops and the message is stored. */
    method Rejected(message: string)
      modifies this`isLoading, this`error
      ensures !isLoading && error == Some(message)
      ensures users == old(users) && currentUser == old(currentUser) && pagination == old(pagination)
      ensures filters == old(filters)
    {
      isLoading := false;
      error := Some(message);
    }

    /**
     * `fetchUsers.fulfilled`: the list and the pagination block are taken from
     * the payload, whichever of its two shapes the service returned.
     */
    method FetchUsersFulfilled(payload: UserPage)
      modifies this`isLoading, this`users, this`pagination
      ensures !isLoading && users == payload.data && pagination == payload.pagination
      ensures currentUser == old(currentUser) && error == old(error) && filters == old(filters)
    {
      isLoading := false;
      users := payload.data;
      pagination := payload.pagination;
    }

    /** `fetchUserById.fulfilled`: only the focus is set. */
    method FetchUserByIdFulfilled(payload: User)
      modifies this`isLoading, this`currentUser
      ensures !isLoading && currentUser == Some(payload)
      ensures users == old(users) && pagination == old(pagination)
      ensures error == old(error) && filters == old(filters)
    {
      isLoading := false;
      currentUser := Some(payload);
    }

    /**
     * `updateUserStatus.fulfilled`: the first cached user with the payload's
     * id is replaced (nothing changes when none matches), and the focus is
     * replaced exactly when its id matches.
     */
    method UpdateStatusFulfilled(payload: User)
      modifies this`isLoading, this`users, this`currentUser
      ensures !isLoading
      ensures users == ListOps.ReplaceFirst(old(users), UserKey, payload)
      ensures |users| == |old(users)|
      ensures !ListOps.HasKey(old(users), UserKey, payload.id) ==> users == old(users)
      ensures currentUser ==
        if old(currentUser).Some? && old(currentUser).value.id == payload.id
        then Some(payload) else old(currentUser)
      ensures old(UniqueIds()) ==> UniqueIds()
      ensures pagination == old(pagination) && error == old(error) && filters == old(filters)
    {
      isLoading := false;
      if UniqueIds() {
        ListOps.ReplaceFirstKeepsUnique(users, UserKey, payload);
      }
      var index := ListOps.FindIndex(users, UserKey, payload.id);
      if index.Some? {
        users := users[index.value := payload];
      }
      if currentUser.Some? && currentUser.value.id == payload.id {
        currentUser := Some(payload);
      }
    }

    /**
     * `createUser.fulfilled`: the registered user (`response.data.user`) goes
     * to the front and every cached user moves back one place; the pagination
     * block is not adjusted.
     */
    method CreateUserFulfilled(payload: User)
      modifies this`isLoading, this`users
      ensures !isLoading && users == [payload] + old(users)
      ensures |users| == |old(users)| + 1
      ensures forall i :: 0 <= i < |old(users)| ==> users[i + 1] == old(users)[i]
      ensures old(UniqueIds()) && !ListOps.HasKey(old(users), UserKey, payload.id) ==>
        UniqueIds() && forall i :: 0 <= i < |users| && users[i].id == payload.id ==> i == 0
      ensures currentUser == old(currentUser) && pagination == old(pagination)
      ensures error == old(error) && filters == old(filters)
    {
      isLoading := false;
      if UniqueIds() && !ListOps.HasKey(users, UserKey, payload.id) {
        ListOps.PrependKeepsUnique(users, UserKey, payload);
      }
      users := [payload] + users;
    }
  }
}
