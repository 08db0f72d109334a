/**
 * The badge styles of a user's account status and role, written identically
 * in the profile page and the user detail page.
 */
module UserStyles {
  import opened Domain

  const Gray: string := "bg-gray-100 text-gray-800"

  /** `getUserStatusStyle`: green, yellow and red for the three account statuses, gray for anything else. */
  function UserStatusStyle(status: string): (style: string)
    ensures status == Active ==> style == "bg-green-100 text-green-800"
    ensures status == Locked ==> style == "bg-yellow-100 text-yellow-800"
    ensures status == Close ==> style == "bg-red-100 text-red-800"
    ensures style == Gray <==> status != Active && status != Locked && status != Close
  {
    match status
    case "active" => "bg-green-100 text-green-800"
    case "locked" => "bg-yellow-100 text-yellow-800"
    case "close" => "bg-red-100 text-red-800"
    case _ => Gray
  }

  /** The three account statuses get three different styles. */
  lemma StatusStylesDistinct(a: string, b: string)
    requires a in {Active, Locked, Close} && b in {Active, Locked, Close} && a != b
    ensures UserStatusStyle(a) != UserStatusStyle(b)
  {
  }

  /** `getRoleStyle`: purple for admins, blue for managers, and the same gray for staff and for any unknown role. */
  function RoleStyle(role: string): (style: string)
    ensures role == Admin ==> style == "bg-purple-100 text-purple-800"
    ensures role == Manager ==> style == "bg-blue-100 text-blue-800"
    ensures style == Gray <==> role != Admin && role != Manager
  {
    match role
    case "admin" => "bg-purple-100 text-purple-800"
    case "manager" => "bg-blue-100 text-blue-800"
    case "staff" => Gray
    case _ => Gray
  }

  /** A staff badge cannot be told apart from the badge of an unknown role. */
  lemma StaffLooksUnknown(role: string)
    requires role != Admin && role != Manager
    ensures RoleStyle(role) == RoleStyle(Staff)
  {
  }
}
