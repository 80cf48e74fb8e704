/** The role order and the two guards of team management. */
module Rbac {

  datatype Role = Owner | Admin | Manager | Agent | Viewer

  const OWNER_LEVEL := 100

  function Level(role: Role): int {
    match role
    case Owner => OWNER_LEVEL
    case Admin => 80
    case Manager => 60
    case Agent => 40
    case Viewer => 20
  }

  predicate Outranks(actor: Role, target: Role) {
    Level(actor) > Level(target)
  }

  /** The roles that hold the permissions to update users and to change their roles. */
  predicate ManagesTeam(role: Role) {
    role == Owner || role == Admin
  }

  predicate CanAssignRole(actor: Role, granted: Role) {
    ManagesTeam(actor) && Outranks(actor, granted)
  }

  predicate CanManageUser(actor: Role, target: Role) {
    ManagesTeam(actor) && (actor == Owner || Outranks(actor, target))
  }
}
