/** The three roles a user of the system can hold, and the names that stand for them. */
module Roles {
  import opened Wrappers

  datatype Role = Admin | Coordenador | Musico

  /** The value of `ROLES` for a role: its name, written as the role is spelled. */
  function RoleName(r: Role): string {
    match r
    case Admin => "Admin"
    case Coordenador => "Coordenador"
    case Musico => "Musico"
  }

  /** The role a name stands for, if any. */
  function ParseRole(s: string): Option<Role> {
    if s == "Admin" then Some(Admin)
    else if s == "Coordenador" then Some(Coordenador)
    else if s == "Musico" then Some(Musico)
    else None
  }

  /**
   * The names and the roles are in one-to-one correspondence: every role's name reads back as
   * that role, and a name reads as a role only when it is that role's name.
   */
  lemma RoleNames(r: Role, s: string)
    ensures ParseRole(RoleName(r)) == Some(r)
    ensures ParseRole(s) == Some(r) <==> s == RoleName(r)
  {
  }
}
