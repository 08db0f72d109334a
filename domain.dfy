/**
 * The entities the client caches, with the fields its logic reads. Audit
 * timestamps (`createdAt`, `updatedAt`, `lastLogin`) are not read by any
 * modelled rule and are omitted.
 */
module Domain {
  import opened Wrappers

  /** A user. `role` and `status` stay strings, because the pages switch on them with a default branch. */
  datatype User = User(
    id: string,
    empNo: string,
    fullName: string,
    email: string,
    phone: string,
    address: string,
    dateOfBirth: string,
    role: string,
    status: string,
    departmentId: Option<string>,
    managerId: Option<string>)

  /** The key the user cache compares on (`user.id`). */
  function UserKey(u: User): string { u.id }

  /**
   * A department. `dbId` is the `_id` field the department cache compares on;
   * `id` is the optional field the profile page's lookup compares on.
   */
  datatype Department = Department(dbId: string, id: Option<string>, name: string, description: string)

  /** The key the department cache compares on (`dept._id`). */
  function DepartmentKey(d: Department): string { d.dbId }

  /** A training's `department` field: a bare department id, or an embedded object whose `name` may be absent. */
  datatype DepartmentRef = DepartmentId(id: string) | Embedded(name: Option<string>)

  /** A training; `users` holds the assigned user ids. */
  datatype Training = Training(
    id: string,
    trainingName: string,
    department: DepartmentRef,
    content: string,
    lastDate: string,
    users: seq<string>)

  /** The key the training cache compares on (`training.id`). */
  function TrainingKey(t: Training): string { t.id }

  /** The pagination block of a paginated user list. */
  datatype Pagination = Pagination(
    currentPage: int,
    totalPages: int,
    totalItems: int,
    itemsPerPage: int,
    hasNextPage: bool,
    hasPreviousPage: bool,
    offset: int)

  const Admin: string := "admin"
  const Manager: string := "manager"
  const Staff: string := "staff"

  const Active: string := "active"
  const Locked: string := "locked"
  const Close: string := "close"
}
