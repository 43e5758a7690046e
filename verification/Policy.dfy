/** Repository roles and the decision on each reference change. */
module Policy {
  import opened Outcomes
  import opened Refs

  datatype RefChange = Create | FastForward | Force | Delete | TagUpdate

  datatype Operation = Read | Write | Maintain

  datatype Role = Owner | Maintainer | Writer | Reader

  datatype PolicyError = Denied | InvalidRole

  // What the store knows about one actor and one repository.
  datatype Access = Access(state: string, visibility: string, role: Option<string>)

  function ParseRole(role: string): Result<Role, PolicyError> {
    if role == "owner" then Success(Owner)
    else if role == "maintainer" then Success(Maintainer)
    else if role == "writer" then Success(Writer)
    else if role == "reader" then Success(Reader)
    else Failure(InvalidRole)
  }

  function Allows(access: Access, operation: Operation): Result<bool, PolicyError> {
    if access.state != "active" then Success(false)
    else if access.role.Some? && ParseRole(access.role.value).Failure? then Failure(InvalidRole)
    else
      var role := if access.role.Some? then Some(ParseRole(access.role.value).value) else None;
      Success(match operation
              case Read => access.visibility == "public" || role.Some?
              case Write => role in {Some(Owner), Some(Maintainer), Some(Writer)}
              case Maintain => role in {Some(Owner), Some(Maintainer)})
  }

  function AuthorizeRefChange(access: Access, defaultBranch: RefName, name: RefName, change: RefChange)
    : Result<(), PolicyError>
  {
    match Allows(access, Write)
    case Failure(error) => Failure(error)
    case Success(false) => Failure(Denied)
    case Success(true) =>
      var isProtected := name == defaultBranch;
      if change == Force || (isProtected && change == Delete) then Failure(Denied)
      else if !isProtected then Success(())
      else
        match Allows(access, Maintain)
        case Failure(error) => Failure(error)
        case Success(allowed) => if allowed then Success(()) else Failure(Denied)
  }

  // The order of the roles; no role and an unknown role rank lowest.
  function Rank(role: Option<string>): nat {
    if role == Some("owner") then 4
    else if role == Some("maintainer") then 3
    else if role == Some("writer") then 2
    else if role == Some("reader") then 1
    else 0
  }

  /**
   A change needs an active repository and a writer, on the default branch a
   maintainer; a forced update and the deletion of the default branch need more
   than any role has.
   */
  lemma RankDecides(access: Access, defaultBranch: RefName, name: RefName, change: RefChange)
    ensures AuthorizeRefChange(access, defaultBranch, name, change).Success? <==>
            && access.state == "active"
            && Rank(access.role) >= (if name == defaultBranch then 3 else 2)
            && change != Force && (name == defaultBranch ==> change != Delete)
    ensures AuthorizeRefChange(access, defaultBranch, name, change) == Failure(InvalidRole) <==>
            access.state == "active" && access.role.Some? && Rank(access.role) == 0
  {
  }

  /** Reading needs a public repository or any role, writing a writer, maintaining a maintainer; an unknown role is an error. */
  lemma OperationsByRank(access: Access, operation: Operation)
    ensures Allows(access, operation) == Success(true) <==>
            && access.state == "active" && (access.role.Some? ==> Rank(access.role) > 0)
            && (if operation == Read then access.visibility == "public" || Rank(access.role) >= 1
                else Rank(access.role) >= (if operation == Write then 2 else 3))
    ensures Allows(access, operation) == Failure(InvalidRole) <==>
            access.state == "active" && access.role.Some? && Rank(access.role) == 0
  {
  }

  /** A higher role may do all that a lower one may. */
  lemma HigherRolesMayMore(low: Access, high: Access, operation: Operation, defaultBranch: RefName, name: RefName, change: RefChange)
    requires low.state == high.state && low.visibility == high.visibility && Rank(low.role) <= Rank(high.role)
    requires high.role.Some? ==> Rank(high.role) > 0
    ensures Allows(low, operation) == Success(true) ==> Allows(high, operation) == Success(true)
    ensures AuthorizeRefChange(low, defaultBranch, name, change).Success? ==> AuthorizeRefChange(high, defaultBranch, name, change).Success?
  {
    RankDecides(low, defaultBranch, name, change);
    RankDecides(high, defaultBranch, name, change);
  }

}
