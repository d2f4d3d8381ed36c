/**
 * The application user: credentials, the enabled flag that drives every
 * account-status check, the granted roles, and the GDPR-style
 * anonymise-and-disable operation.
 */
module Users {
  import opened Wrappers

  /** A granted authority: a role name (possibly null). */
  datatype Role = Role(authority: Option<string>)

  const ANONYMOUS_NAME := "Anonymous Smith"
  const BLANK_PASSWORD := "blank"
  const ANONYMOUS_DOMAIN := "@acme.com"

  /** A snapshot of every field of a user, to state what a mutator leaves alone. */
  datatype UserState = UserState(
    id: Option<int>,
    version: Option<int>,
    enabled: bool,
    username: Option<string>,
    password: string,
    fullName: Option<string>,
    authorities: set<Role>)

  class User {
    /** Generated primary key; None until persisted. */
    var id: Option<int>
    /** Optimistic-lock version; None until persisted. */
    var version: Option<int>
    var enabled: bool
    var username: Option<string>
    /** Never null: every path that sets it refuses null. */
    var password: string
    var fullName: Option<string>
    var authorities: set<Role>

    function State(): UserState
      reads this
    {
      UserState(id, version, enabled, username, password, fullName, authorities)
    }

    /** new User(username, password) once the password is known to be non-null. */
    constructor (username: Option<string>, password: string)
      ensures State() == UserState(None, None, true, username, password, None, {})
    {
      this.id := None;
      this.version := None;
      this.enabled := true;
      this.username := username;
      this.password := password;
      this.fullName := None;
      this.authorities := {};
    }

    /** setPassword: Objects.requireNonNull refuses null and leaves the user as it was. */
    method SetPassword(password: Option<string>) returns (r: Outcome)
      modifies this
      ensures password.None? ==> r == Fail(NullPointer) && State() == old(State())
      ensures password.Some? ==> r.Pass? && State() == old(State()).(password := password.value)
    {
      if password.None? {
        return Fail(NullPointer);
      }
      this.password := password.value;
      return Pass;
    }

    /** addAuthority: set insertion, so an equal role already present changes nothing. */
    method AddAuthority(role: Role)
      modifies this
      ensures State() == old(State()).(authorities := old(authorities) + {role})
      ensures role in old(authorities) ==> State() == old(State())
    {
      authorities := authorities + {role};
    }

    function IsEnabled(): bool
      reads this
    {
      enabled
    }

    function IsAccountNonExpired(): (r: bool)
      reads this
      ensures r == IsEnabled()
    {
      IsEnabled()
    }

    function IsAccountNonLocked(): (r: bool)
      reads this
      ensures r == IsEnabled()
    {
      IsEnabled()
    }

    function IsCredentialsNonExpired(): (r: bool)
      reads this
      ensures r == IsEnabled()
    {
      IsEnabled()
    }

    /**
     * anonymizeAndDisable: the username becomes a random UUID at acme.com
     * (the UUID text is a parameter), the name and password fixed
     * placeholders, and the account disabled; id, version and roles stay.
     */
    method AnonymizeAndDisable(uuid: string)
      modifies this
      ensures State() == old(State()).(username := Some(uuid + ANONYMOUS_DOMAIN),
                                       fullName := Some(ANONYMOUS_NAME),
                                       password := BLANK_PASSWORD,
                                       enabled := false)
      ensures !IsAccountNonExpired() && !IsAccountNonLocked() && !IsCredentialsNonExpired()
    {
      username := Some(uuid + ANONYMOUS_DOMAIN);
      fullName := Some(ANONYMOUS_NAME);
      var _ := SetPassword(Some(BLANK_PASSWORD));
      enabled := false;
    }
  }

  /** new User(username, password): fails with NullPointerException on a null password. */
  method NewUserCredentials(username: Option<string>, password: Option<string>) returns (r: Result<User>)
    ensures password.None? <==> r == Failure(NullPointer)
    ensures r.Success? ==> fresh(r.value) && r.value.State() == UserState(None, None, true, username, password.value, None, {})
  {
    if password.None? {
      return Failure(NullPointer);
    }
    var u := new User(username, password.value);
    return Success(u);
  }

  /** newUser(username, password, fullName). */
  method NewUser(username: Option<string>, password: Option<string>, fullName: Option<string>) returns (r: Result<User>)
    ensures password.None? <==> r == Failure(NullPointer)
    ensures r.Success? ==> fresh(r.value) && r.value.State() == UserState(None, None, true, username, password.value, fullName, {})
  {
    r := NewUserCredentials(username, password);
    if r.Success? {
      r.value.fullName := fullName;
    }
  }

  /** newUser(username, password, fullName, role): exactly that one authority. */
  method NewUserWithRole(username: Option<string>, password: Option<string>, fullName: Option<string>, role: Option<string>)
    returns (r: Result<User>)
    ensures password.None? <==> r == Failure(NullPointer)
    ensures r.Success? ==>
              fresh(r.value) && r.value.State() == UserState(None, None, true, username, password.value, fullName, {Role(role)})
  {
    r := NewUser(username, password, fullName);
    if r.Success? {
      r.value.AddAuthority(Role(role));
    }
  }
}

/** The two default lookups of the user repository, over an in-memory id-to-user store. */
module UserRepository {
  import opened Wrappers
  import opened Users

  const USER_ENTITY := "User"
  const MODIFIED_BY_ANOTHER := "Resource has been modified by another user. Please refresh and try again."

  /** getById: present and enabled, otherwise NotFound (a disabled user is hidden). */
  function GetById(users: map<int, User>, id: int): (r: Result<User>)
    reads users.Values
    ensures r.Success? <==> id in users && users[id].enabled
    ensures r.Success? ==> r.value == users[id]
    ensures r.Failure? ==> r.error == NotFound(USER_ENTITY, id)
  {
    if id in users && users[id].enabled then Success(users[id]) else Failure(NotFound(USER_ENTITY, id))
  }

  /** getByIdAndVersion: getById first; a given version must equal the stored one, or 412. */
  function GetByIdAndVersion(users: map<int, User>, id: int, version: Option<int>): (r: Result<User>)
    reads users.Values
    ensures GetById(users, id).Failure? ==> r == GetById(users, id)
    ensures version.None? ==> r == GetById(users, id)
    ensures r.Success? ==> r == GetById(users, id)
    ensures version.Some? && GetById(users, id).Success? ==>
              (r.Success? <==> users[id].version == version)
    ensures r.Failure? && GetById(users, id).Success? ==>
              r.error == ResponseStatus(PRECONDITION_FAILED, MODIFIED_BY_ANOTHER)
  {
    match GetById(users, id)
    case Failure(e) => Failure(e)
    case Success(user) =>
      if version.Some? && Some(version.value) != user.version
      then Failure(ResponseStatus(PRECONDITION_FAILED, MODIFIED_BY_ANOTHER))
      else Success(user)
  }

  /** An enabled user whose stored version is still unset fails every versioned lookup. */
  lemma UnversionedUserAlwaysStale(users: map<int, User>, id: int, v: int)
    requires id in users && users[id].enabled && users[id].version.None?
    ensures GetByIdAndVersion(users, id, Some(v)) == Failure(ResponseStatus(PRECONDITION_FAILED, MODIFIED_BY_ANOTHER))
  {
  }
}
