/** The `users` table (models/User.js): accounts with a role enum defaulting
    to `user`, unique `username` and `email`, and the two hooks that replace
    the password by its hash. The hash and compare functions of the password
    library are parameters: they are not interpreted here. */
module Users {
  import opened Wrappers

  datatype Role = Admin | Librarian | Member

  /** Column default of `role` ("user"). */
  const DefaultRole: Role := Member

  function RoleName(r: Role): string {
    match r
    case Admin => "admin"
    case Librarian => "librarian"
    case Member => "user"
  }

  function ParseRole(s: string): (r: Option<Role>)
    ensures r.Some? ==> RoleName(r.value) == s
    ensures r.None? ==> forall role: Role :: RoleName(role) != s
  {
    if s == "admin" then Some(Admin)
    else if s == "librarian" then Some(Librarian)
    else if s == "user" then Some(Member)
    else None
  }

  datatype Account = Account(
    id: nat,
    username: string,
    email: string,
    password: string,
    role: Role,
    firstName: Option<string>,
    lastName: Option<string>)

  /** The values given to `User.create`. */
  datatype AccountData = AccountData(
    username: Option<string>,
    email: Option<string>,
    password: Option<string>,
    role: Option<string>,
    firstName: Option<string>,
    lastName: Option<string>)

  /** Model validation before the insert: `username`, `email` and `password`
      are non-null, `email` passes the model's `isEmail` validator and `role`,
      when given, is one of the enum's names; an absent role is `user`. */
  function NewAccount(id: nat, data: AccountData, isEmail: string -> bool): (r: Option<Account>)
    ensures r.Some? <==>
      && data.username.Some? && data.email.Some? && data.password.Some?
      && isEmail(data.email.value)
      && (data.role.Some? ==> ParseRole(data.role.value).Some?)
    ensures r.Some? ==> r.value.id == id && r.value.username == data.username.value && r.value.email == data.email.value
    ensures r.Some? && data.role.None? ==> r.value.role == DefaultRole
    ensures r.Some? && data.role.Some? ==> RoleName(r.value.role) == data.role.value
    ensures r.Some? ==> r.value.password == data.password.value
    ensures r.Some? ==> r.value.firstName == data.firstName && r.value.lastName == data.lastName
  {
    if data.username.None? || data.email.None? || data.password.None? || !isEmail(data.email.value) then None
    else
      var role := if data.role.None? then Some(DefaultRole) else ParseRole(data.role.value);
      if role.None? then None
      else Some(Account(id, data.username.value, data.email.value, data.password.value, role.value,
                        data.firstName, data.lastName))
  }

  /** The unique indexes on `username` and `email`, and the primary key. */
  ghost predicate UniqueAccounts(users: map<nat, Account>) {
    && (forall i :: i in users ==> users[i].id == i)
    && (forall i, j :: i in users && j in users && i != j ==>
          users[i].username != users[j].username && users[i].email != users[j].email)
  }

  /** An INSERT into `users`: refused when the id, the username or the email
      is already taken. */
  function InsertAccount(users: map<nat, Account>, a: Account): (r: Option<map<nat, Account>>)
    ensures r.Some? <==>
      && a.id !in users
      && (forall i :: i in users ==> users[i].username != a.username && users[i].email != a.email)
    ensures r.Some? ==> r.value == users[a.id := a]
    ensures r.Some? && UniqueAccounts(users) ==> UniqueAccounts(r.value)
  {
    if a.id in users then None
    else if exists i :: i in users && (users[i].username == a.username || users[i].email == a.email) then None
    else Some(users[a.id := a])
  }

  /** The password the `beforeCreate` hook leaves: a non-empty one is hashed. */
  function PasswordOnCreate(password: string, hash: string -> string): string {
    if password != "" then hash(password) else password
  }

  /** The password the `beforeUpdate` hook leaves: hashed only if it changed. */
  function PasswordOnUpdate(password: string, previous: string, hash: string -> string): string {
    if password != previous then hash(password) else password
  }

  /** A user instance as the hooks see it: its current values and the
      password value last read from (or written to) its row. */
  class UserInstance {
    var account: Account
    var previousPassword: string

    constructor (account: Account, previousPassword: string)
      ensures this.account == account && this.previousPassword == previousPassword
    {
      this.account := account;
      this.previousPassword := previousPassword;
    }

    /** `user.changed('password')`. */
    predicate PasswordChanged()
      reads this
    {
      account.password != previousPassword
    }

    method BeforeCreate(hash: string -> string)
      modifies this
      ensures previousPassword == old(previousPassword)
      ensures account == old(account).(password := PasswordOnCreate(old(account.password), hash))
      ensures old(account.password) == "" ==> account == old(account)
    {
      if account.password != "" {
        account := account.(password := hash(account.password));
      }
    }

    method BeforeUpdate(hash: string -> string)
      modifies this
      ensures previousPassword == old(previousPassword)
      ensures account == old(account).(password := PasswordOnUpdate(old(account.password), old(previousPassword), hash))
      ensures !old(PasswordChanged()) ==> account == old(account)
    {
      if PasswordChanged() {
        account := account.(password := hash(account.password));
      }
    }

    /** `validatePassword`: the candidate is checked against the stored hash. */
    function ValidatePassword(candidate: string, compare: (string, string) -> bool): (ok: bool)
      reads this
      ensures ok == compare(candidate, account.password)
    {
      compare(candidate, account.password)
    }
  }

  /** When compare accepts every password against its own hash, an instance
      whose non-empty password went through `BeforeCreate` (which leaves
      `PasswordOnCreate` of it, by that method's contract) validates that
      password afterwards. */
  lemma CreatedPasswordValidates(u: UserInstance, password: string, hash: string -> string, compare: (string, string) -> bool)
    requires forall p :: compare(p, hash(p))
    requires password != ""
    requires u.account.password == PasswordOnCreate(password, hash)
    ensures u.ValidatePassword(password, compare)
  {
  }

  /** Register then log in: an account built from a body with a non-empty
      password, once `BeforeCreate` has hashed it, validates that same
      password (for a compare that accepts every password against its own
      hash). */
  lemma RegisteredPasswordValidates(u: UserInstance, id: nat, data: AccountData, isEmail: string -> bool,
                                    hash: string -> string, compare: (string, string) -> bool)
    requires forall p :: compare(p, hash(p))
    requires NewAccount(id, data, isEmail).Some? && data.password.value != ""
    requires u.account == NewAccount(id, data, isEmail).value.(password := PasswordOnCreate(NewAccount(id, data, isEmail).value.password, hash))
    ensures u.ValidatePassword(data.password.value, compare)
    ensures u.account.username == data.username.value
  {
    CreatedPasswordValidates(u, data.password.value, hash, compare);
  }
}
