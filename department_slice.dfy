/**
 * The department cache: a list of departments, the department in focus, a
 * loading flag and the last error, moved by the pending, fulfilled and
 * rejected cases of five asynchronous operations and by two plain reducers.
 * Departments are compared on `_id` (`dbId`); a created department goes to
 * the end of the list.
 */
module DepartmentSlice {
  import opened Wrappers
  import opened Domain
  import ListOps
  import AsyncThunk

  /** The five asynchronous operations on departments. */
  datatype Operation = FetchAll | FetchById | Create | Update | Delete

  /** The fixed message each operation rejects with when the server sends none. */
  function Fallback(op: Operation): (m: string)
    ensures m != ""
  {
    match op
    case FetchAll => "Failed to fetch departments"
    case FetchById => "Failed to fetch department"
    case Create => "Failed to create department"
    case Update => "Failed to update department"
    case Delete => "Failed to delete department"
  }

  /** Different operations fall back to different messages, so the banner tells which one failed. */
  lemma FallbacksDistinct(a: Operation, b: Operation)
    requires a != b
    ensures Fallback(a) != Fallback(b)
  {
  }

  /** A rejected operation always stores a non-empty message, so its error banner always shows. */
  lemma RejectionNeverBlank(op: Operation, serverMessage: Option<string>)
    ensures AsyncThunk.RejectionMessage(serverMessage, Fallback(op)) != ""
  {
  }

  class DepartmentState {
    var departments: seq<Department>
    var currentDepartment: Option<Department>
    var isLoading: bool
    var error: Option<string>

    /** No two cached departments share an `_id`. */
    predicate UniqueIds()
      reads this
    {
      ListOps.UniqueKeys(departments, DepartmentKey)
    }

    /** The initial state: nothing cached, nothing in focus, idle, no error. */
    constructor ()
      ensures departments == [] && currentDepartment == None && !isLoading && error == None
      ensures UniqueIds()
    {
      departments := [];
      currentDepartment := None;
      isLoading := false;
      error := None;
    }

    /** `clearError`: only the error is reset. */
    method ClearError()
      modifies this`error
      ensures error == None
      ensures departments == old(departments) && currentDepartment == old(currentDepartment) && isLoading == old(isLoading)
    {
      error := None;
    }

    /** `clearCurrentDepartment`: only the focus is reset. */
    method ClearCurrentDepartment()
      modifies this`currentDepartment
      ensures currentDepartment == None
      ensures departments == old(departments) && isLoading == old(isLoading) && error == old(error)
    {
      currentDepartment := None;
    }

    /** The pending case, identical for all five operations: loading starts and the error is cleared. */
    method Pending()
      modifies this`isLoading, this`error
      ensures isLoading && error == None
      ensures departments == old(departments) && currentDepartment == old(currentDepartment)
    {
      isLoading := true;
      error := None;
    }

    /** The rejected case, identical for all five operations: loading stops and the message is stored; cached data is untouched. */
    method Rejected(message: string)
      modifies this`isLoading, this`error
      ensures !isLoading && error == Some(message)
      ensures departments == old(departments) && currentDepartment == old(currentDepartment)
    {
      isLoading := false;
      error := Some(message);
    }

    /** `fetchDepartments.fulfilled`: the list is replaced wholesale. */
    method FetchAllFulfilled(payload: seq<Department>)
      modifies this`isLoading, this`departments
      ensures !isLoading && departments == payload
      ensures currentDepartment == old(currentDepartment) && error == old(error)
    {
      isLoading := false;
      departments := payload;
    }

    /** `fetchDepartmentById.fulfilled`: only the focus is set. */
    method FetchByIdFulfilled(payload: Department)
      modifies this`isLoading, this`currentDepartment
      ensures !isLoading && currentDepartment == Some(payload)
      ensures departments == old(departments) && error == old(error)
    {
      isLoading := false;
      currentDepartment := Some(payload);
    }

    /**
     * `createDepartment.fulfilled`: the new department is pushed at the end, every
     * old one keeps its place; when its `_id` was new it is then the only one with it.
     */
    method CreateFulfilled(payload: Department)
      modifies this`isLoading, this`departments
      ensures !isLoading && departments == old(departments) + [payload]
      ensures |departments| == |old(departments)| + 1
      ensures forall i :: 0 <= i < |old(departments)| ==> departments[i] == old(departments)[i]
      ensures old(UniqueIds()) && !ListOps.HasKey(old(departments), DepartmentKey, payload.dbId) ==>
        UniqueIds() && forall i :: 0 <= i < |departments| && departments[i].dbId == payload.dbId ==> i == |departments| - 1
      ensures currentDepartment == old(currentDepartment) && error == old(error)
    {
      isLoading := false;
      if UniqueIds() && !ListOps.HasKey(departments, DepartmentKey, payload.dbId) {
        ListOps.AppendKeepsUnique(departments, DepartmentKey, payload);
      }
      departments := departments + [payload];
    }

    /**
     * `updateDepartment.fulfilled`: the first cached department with the payload's
     * `_id` is replaced (length and all other positions kept, nothing changes when
     * none matches), and the focus is replaced exactly when its `_id` matches.
     */
    method UpdateFulfilled(payload: Department)
      modifies this`isLoading, this`departments, this`currentDepartment
      ensures !isLoading
      ensures departments == ListOps.ReplaceFirst(old(departments), DepartmentKey, payload)
      ensures |departments| == |old(departments)|
      ensures !ListOps.HasKey(old(departments), DepartmentKey, payload.dbId) ==> departments == old(departments)
      ensures currentDepartment ==
        if old(currentDepartment).Some? && old(currentDepartment).value.dbId == payload.dbId
        then Some(payload) else old(currentDepartment)
      ensures old(UniqueIds()) ==> UniqueIds()
      ensures error == old(error)
    {
      isLoading := false;
      if UniqueIds() {
        ListOps.ReplaceFirstKeepsUnique(departments, DepartmentKey, payload);
      }
      var index := ListOps.FindIndex(departments, DepartmentKey, payload.dbId);
      if index.Some? {
        departments := departments[index.value := payload];
      }
      if currentDepartment.Some? && currentDepartment.value.dbId == payload.dbId {
        currentDepartment := Some(payload);
      }
    }

    /**
     * `deleteDepartment.fulfilled`: every department with the `_id` is filtered out,
     * the rest keep their order, and the focus is cleared exactly when its `_id` matches.
     */
    method DeleteFulfilled(id: string)
      modifies this`isLoading, this`departments, this`currentDepartment
      ensures !isLoading
      ensures departments == ListOps.RemoveKey(old(departments), DepartmentKey, id)
      ensures !ListOps.HasKey(departments, DepartmentKey, id)
      ensures currentDepartment ==
        if old(currentDepartment).Some? && old(currentDepartment).value.dbId == id
        then None else old(currentDepartment)
      ensures old(UniqueIds()) ==> UniqueIds()
      ensures error == old(error)
    {
      isLoading := false;
      if UniqueIds() {
        ListOps.RemoveKeyKeepsUnique(departments, DepartmentKey, id);
      }
      departments := ListOps.RemoveKey(departments, DepartmentKey, id);
      if currentDepartment.Some? && currentDepartment.value.dbId == id {
        currentDepartment := None;
      }
    }
  }
}
