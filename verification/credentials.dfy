/** The credential store: a plain mapping from user name to password, compared
    by exact string equality (no hashing). Loading and saving `users.json` is
    not modelled; each operation receives the loaded mapping and returns the
    mapping it would save. */
module Credentials {
  import opened Wrappers

  type Users = map<string, string>

  /** Python's `users.get(username)`: the stored password, or `None`. */
  function Lookup(users: Users, username: string): Option<string> {
    if username in users then Some(users[username]) else None
  }

  /** The mapping after a registration attempt, and the name the attempt
      returns (its caller discards it, so registering logs nobody in). */
  datatype Registration = Registration(users: Users, returned: Option<string>)

  /** Registration: a name already present is refused, returns nothing and
      nothing is saved; otherwise the name is stored with its password and
      returned. */
  function Register(users: Users, username: string, password: string): (r: Registration)
    ensures username in users ==> r.users == users && r.returned == None
    ensures username !in users ==> r.returned == Some(username)
    ensures username !in users ==> r.users.Keys == users.Keys + {username}
    ensures username !in users ==> r.users[username] == password
    ensures forall u :: u in users ==> u in r.users && r.users[u] == users[u]
  {
    if username in users then Registration(users, None)
    else Registration(users[username := password], Some(username))
  }

  /** Login: the stored value for the name is compared with the supplied
      password; an unknown name looks up `None`, which equals no password. */
  function Login(users: Users, username: string, password: string): (r: Option<string>)
    ensures r.Some? <==> username in users && users[username] == password
    ensures r.Some? ==> r.value == username
  {
    if Lookup(users, username) == Some(password) then Some(username) else None
  }

  /** A fresh registration can be followed by a login with the same password. */
  lemma RegisteredUserCanLogIn(users: Users, username: string, password: string)
    requires username !in users
    ensures Register(users, username, password).returned == Some(username)
    ensures Login(Register(users, username, password).users, username, password) == Some(username)
  {
  }

  /** Registration never changes how an existing account, or any other name,
      answers a login: the only login it can enable is the new name's. */
  lemma RegisterKeepsOtherLogins(users: Users, username: string, password: string,
                                 other: string, guess: string)
    requires other in users || other != username
    ensures Login(Register(users, username, password).users, other, guess) == Login(users, other, guess)
  {
  }

  /** A login succeeds with at most one password per name. */
  lemma LoginPasswordIsUnique(users: Users, username: string, p: string, q: string)
    requires Login(users, username, p).Some? && Login(users, username, q).Some?
    ensures p == q
  {
  }
}
