/**
 * The administrator's user page: choosing a user to edit, changing their role and managed
 * church, and the checked update that saving sends.
 */
module AdminUsers {
  import opened Wrappers
  import opened JsNumbers
  import opened Roles

  datatype Igreja = Igreja(id: Number, nome: string)

  /** A user as the page lists and edits it. */
  datatype UsuarioAdminView = UsuarioAdminView(id: int, email: string, nome: string, role: Role,
                                               igrejaGerenciada: Option<Igreja>)

  /** The JavaScript values the church field of the update can hold. */
  datatype JsValue = Undefined | Null | NumberValue(num: Number)

  /** `!v`: `undefined`, `null`, `NaN` and `0` are the falsy values among these. */
  predicate Falsy(v: JsValue) {
    match v
    case Undefined => true
    case Null => true
    case NumberValue(NaN) => true
    case NumberValue(Num(n)) => n == 0
  }

  /** The body of the update request. */
  datatype UserUpdate = UserUpdate(role: Role, igrejaGerenciadaId: JsValue)

  /** What saving does: nothing, the missing-church alert, or the update request for a user. */
  datatype SaveOutcome = NothingToSave | MissingChurch | Patch(userId: int, dto: UserUpdate)

  /** The update for an edited user: the managed church is sent only for a Coordenador. */
  function BuildDto(u: UsuarioAdminView): UserUpdate {
    UserUpdate(u.role,
      if u.role == Coordenador then
        (match u.igrejaGerenciada
         case None => Undefined
         case Some(igreja) => NumberValue(igreja.id))
      else Null)
  }

  /** `handleSaveEdit` up to the request: the checks it makes and the request it sends. */
  function SaveEdit(editing: Option<UsuarioAdminView>): SaveOutcome {
    match editing
    case None => NothingToSave
    case Some(u) =>
      var dto := BuildDto(u);
      if dto.role == Coordenador && Falsy(dto.igrejaGerenciadaId) then MissingChurch
      else Patch(u.id, dto)
  }

  /** The user has a church to manage: one chosen, with a number other than 0 as its id. */
  predicate HasChurch(u: UsuarioAdminView) {
    u.igrejaGerenciada.Some? && u.igrejaGerenciada.value.id.Num?
    && u.igrejaGerenciada.value.id.n != 0
  }

  /**
   * Saving does nothing exactly when no user is being edited; it stops at the alert exactly
   * when the edited user is a Coordenador without a church; otherwise it sends the user's new
   * role with the chosen church's id for a Coordenador and `null` for any other role.
   */
  lemma SaveEditOutcome(editing: Option<UsuarioAdminView>)
    ensures SaveEdit(editing) == NothingToSave <==> editing.None?
    ensures SaveEdit(editing) == MissingChurch
      <==> editing.Some? && editing.value.role == Coordenador && !HasChurch(editing.value)
    ensures SaveEdit(editing).Patch? ==>
      var u := editing.value;
      && SaveEdit(editing).userId == u.id
      && SaveEdit(editing).dto.role == u.role
      && (u.role == Coordenador ==>
            HasChurch(u) && SaveEdit(editing).dto.igrejaGerenciadaId == NumberValue(u.igrejaGerenciada.value.id))
      && (u.role != Coordenador ==> SaveEdit(editing).dto.igrejaGerenciadaId == Null)
  {
    if editing.Some? {
      var u := editing.value;
      if u.role == Coordenador {
        ChurchField(u);
      }
    }
  }

  /** For a Coordenador the church field is falsy exactly when there is no church to manage. */
  lemma ChurchField(u: UsuarioAdminView)
    requires u.role == Coordenador
    ensures Falsy(BuildDto(u).igrejaGerenciadaId) <==> !HasChurch(u)
  {
    match u.igrejaGerenciada
    case None =>
    case Some(igreja) =>
      assert BuildDto(u).igrejaGerenciadaId == NumberValue(igreja.id);
  }

  /** The role select: the edited user takes the chosen role. */
  function WithRole(u: UsuarioAdminView, r: Role): UsuarioAdminView {
    u.(role := r)
  }

  /** The church select: the edited user's church becomes `parseInt` of the chosen option. */
  function WithChurchChoice(u: UsuarioAdminView, value: string): UsuarioAdminView {
    u.(igrejaGerenciada := Some(Igreja(ParseInt(value), "")))
  }

  /**
   * A Coordenador left on the placeholder option is refused; one given a church whose id is
   * not 0 is sent with exactly that id.
   */
  lemma ChurchChoiceChecked(u: UsuarioAdminView, churchId: int)
    requires u.role == Coordenador
    ensures SaveEdit(Some(WithChurchChoice(u, ""))) == MissingChurch
    ensures churchId != 0 ==>
      SaveEdit(Some(WithChurchChoice(u, IntToString(churchId))))
        == Patch(u.id, UserUpdate(Coordenador, NumberValue(Num(churchId))))
  {
    assert ParseInt("") == NaN;
    ParseIntOfString(churchId);
  }

  /** Any role other than Coordenador passes the check, whatever church the user has. */
  lemma OtherRolesPass(u: UsuarioAdminView, r: Role)
    requires r != Coordenador
    ensures SaveEdit(Some(WithRole(u, r))) == Patch(u.id, UserUpdate(r, Null))
  {
  }

  /** The page's editing state. */
  class AdminUsersPage {
    var editingUser: Option<UsuarioAdminView>

    constructor()
      ensures editingUser == None
    {
      editingUser := None;
    }

    /** `Gerenciar`: a copy of the chosen user becomes the one being edited. */
    method HandlePromote(usuario: UsuarioAdminView)
      modifies this
      ensures editingUser == Some(usuario)
    {
      editingUser := Some(usuario);
    }

    /** `Cancelar`: nobody is being edited any more. */
    method HandleCancelEdit()
      modifies this
      ensures editingUser == None
    {
      editingUser := None;
    }

    /** The role select, shown only while a user is being edited. */
    method HandleRoleChange(r: Role)
      requires editingUser.Some?
      modifies this
      ensures editingUser == Some(WithRole(old(editingUser).value, r))
    {
      editingUser := Some(WithRole(editingUser.value, r));
    }

    /** The church select, shown only while a Coordenador is being edited. */
    method HandleChurchChange(value: string)
      requires editingUser.Some? && editingUser.value.role == Coordenador
      modifies this
      ensures editingUser == Some(WithChurchChoice(old(editingUser).value, value))
    {
      editingUser := Some(WithChurchChoice(editingUser.value, value));
    }

    /**
     * `Salvar`: the outcome of the checks; the editing state is cleared only when the update
     * was sent and the server accepted it (`patchSucceeded`).
     */
    method HandleSaveEdit(patchSucceeded: bool) returns (outcome: SaveOutcome)
      modifies this
      ensures outcome == SaveEdit(old(editingUser))
      ensures editingUser == (if outcome.Patch? && patchSucceeded then None else old(editingUser))
    {
      outcome := SaveEdit(editingUser);
      if outcome.Patch? && patchSucceeded {
        editingUser := None;
      }
    }
  }
}
