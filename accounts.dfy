/** The account registry of the agenda app: the `users` key holds every
    account, the `currentUser` key the single logged-in session. */
module Accounts {
  import opened Wrappers

  datatype Account = Account(id: string, username: string, email: string, password: string)

  /** The three accounts written the first time the registry runs. */
  const PredefinedUsers: seq<Account> := [
    Account("1", "juanperez", "juanperez@gmail.com", "juan12345"),
    Account("2", "davidisaac", "davidisaac@gmail.com", "dvd1234"),
    Account("3", "bryanwill", "bryanwill@gmail.com", "bryan2345")
  ]

  datatype AuthError = EmailRegistered | UsernameInUse | BadCredentials

  /** The message carried by the thrown error. */
  function Message(e: AuthError): string
  {
    match e
    case EmailRegistered => "El correo electrónico ya está registrado"
    case UsernameInUse => "El nombre de usuario ya está en uso"
    case BadCredentials => "Credenciales incorrectas"
  }

  /** The account list after `initializeUsers`, given what the `users` key held. */
  function Initialized(users: Option<seq<Account>>): seq<Account>
  {
    if users.None? then PredefinedUsers else users.value
  }

  predicate EmailTaken(users: seq<Account>, email: string)
  {
    exists i :: 0 <= i < |users| && users[i].email == email
  }

  predicate UsernameTaken(users: seq<Account>, username: string)
  {
    exists i :: 0 <= i < |users| && users[i].username == username
  }

  /** No two accounts share an email, and no two share a username. */
  predicate Unique(users: seq<Account>)
  {
    forall i, j :: 0 <= i < j < |users| ==>
      users[i].email != users[j].email && users[i].username != users[j].username
  }

  /** The checks and the append of `registerUser`, on the loaded list. */
  function Register(users: seq<Account>, newUser: Account): (r: Result<seq<Account>, AuthError>)
    ensures r == Failure(EmailRegistered) <==> EmailTaken(users, newUser.email)
    ensures r == Failure(UsernameInUse) <==>
      !EmailTaken(users, newUser.email) && UsernameTaken(users, newUser.username)
    ensures r.Success? <==>
      !EmailTaken(users, newUser.email) && !UsernameTaken(users, newUser.username)
    ensures r.Success? ==>
              |r.value| == |users| + 1 && r.value[..|users|] == users && r.value[|users|] == newUser
  {
    if EmailTaken(users, newUser.email) then Failure(EmailRegistered)
    else if UsernameTaken(users, newUser.username) then Failure(UsernameInUse)
    else Success(users + [newUser])
  }

  predicate Matches(a: Account, email: string, password: string)
  {
    a.email == email && a.password == password
  }

  /** `users.find(...)`: the first account whose email and password both match. */
  function FindCredentials(users: seq<Account>, email: string, password: string): (r: Option<Account>)
    ensures r.None? <==> forall i :: 0 <= i < |users| ==> !Matches(users[i], email, password)
    ensures r.Some? ==>
              exists k :: 0 <= k < |users| && users[k] == r.value && Matches(users[k], email, password) &&
                          forall j :: 0 <= j < k ==> !Matches(users[j], email, password)
  {
    if users == [] then None
    else if Matches(users[0], email, password) then Some(users[0])
    else
      var r := FindCredentials(users[1..], email, password);
      assert forall i :: 1 <= i < |users| ==> users[i] == users[1..][i - 1];
      r
  }

  /** Seeding a second time changes nothing. */
  lemma InitializeIdempotent(users: Option<seq<Account>>)
    ensures Initialized(Some(Initialized(users))) == Initialized(users)
    ensures users.None? ==> Initialized(users) == PredefinedUsers
    ensures users.Some? ==> Initialized(users) == users.value
  {
  }

  /** The seed accounts already satisfy the uniqueness invariant. */
  lemma PredefinedUnique()
    ensures Unique(PredefinedUsers)
  {
  }

  /** A successful registration keeps emails and usernames pairwise distinct. */
  lemma RegisterPreservesUnique(users: seq<Account>, newUser: Account)
    requires Unique(users)
    requires Register(users, newUser).Success?
    ensures Unique(Register(users, newUser).value)
  {
  }

  /** An account that duplicates both an email and a username reports the email. */
  lemma EmailCheckedFirst(users: seq<Account>, newUser: Account, i: nat, j: nat)
    requires i < |users| && j < |users|
    requires users[i].email == newUser.email && users[j].username == newUser.username
    ensures Register(users, newUser) == Failure(EmailRegistered)
  {
  }

  /** Registering the same account twice: the second attempt fails on its email. */
  lemma RegisterTwiceFails(users: seq<Account>, newUser: Account)
    requires Register(users, newUser).Success?
    ensures Register(Register(users, newUser).value, newUser) == Failure(EmailRegistered)
  {
  }

  /** The seeded login works with its own password and with no other. */
  lemma SeedLogin(password: string)
    ensures FindCredentials(PredefinedUsers, "juanperez@gmail.com", "juan12345") == Some(PredefinedUsers[0])
    ensures FindCredentials(PredefinedUsers, "juanperez@gmail.com", password).Some? <==> password == "juan12345"
  {
  }

  class Registry {
    /** The `users` key; `None` while it has never been written. */
    var users: Option<seq<Account>>
    /** The `currentUser` key. */
    var currentUser: Option<Account>

    ghost predicate Valid()
      reads this
    {
      users.Some? ==> Unique(users.value)
    }

    /** A store on which the app has never run. */
    constructor ()
      ensures Valid()
      ensures users == None && currentUser == None
    {
      users := None;
      currentUser := None;
    }

    /** `initializeUsers`: writes the seed accounts when the `users` key is absent. */
    method InitializeUsers()
      requires Valid()
      modifies this
      ensures Valid()
      ensures users == Some(Initialized(old(users)))
      ensures old(users).Some? ==> users == old(users)
      ensures currentUser == old(currentUser)
    {
      if users.None? {
        PredefinedUnique();
        users := Some(PredefinedUsers);
      }
    }

    /** `registerUser`: seeds, then rejects a taken email, then a taken username,
        and otherwise appends the account. A failure still leaves the seeding done. */
    method RegisterUser(newUser: Account) returns (r: Result<bool, AuthError>)
      requires Valid()
      modifies this
      ensures Valid()
      ensures currentUser == old(currentUser)
      ensures match Register(Initialized(old(users)), newUser)
        case Success(after) => r == Success(true) && users == Some(after)
        case Failure(e) => r == Failure(e) && users == Some(Initialized(old(users)))
    {
      InitializeUsers();
      var list := users.value;
      if EmailTaken(list, newUser.email) {
        return Failure(EmailRegistered);
      }
      if UsernameTaken(list, newUser.username) {
        return Failure(UsernameInUse);
      }
      RegisterPreservesUnique(list, newUser);
      list := list + [newUser];
      users := Some(list);
      r := Success(true);
    }

    /** `loginUser`: seeds, then stores the first account matching both
        credentials as the session; with no match the session is untouched. */
    method LoginUser(email: string, password: string) returns (r: Result<Account, AuthError>)
      requires Valid()
      modifies this
      ensures Valid()
      ensures users == Some(Initialized(old(users)))
      ensures match FindCredentials(Initialized(old(users)), email, password)
        case Some(a) => r == Success(a) && currentUser == Some(a)
        case None => r == Failure(BadCredentials) && currentUser == old(currentUser)
    {
      InitializeUsers();
      var found := FindCredentials(users.value, email, password);
      if found.Some? {
        currentUser := found;
        r := Success(found.value);
      } else {
        r := Failure(BadCredentials);
      }
    }

    /** `getCurrentUser`: the stored session, or null when there is none. */
    method GetCurrentUser() returns (u: Option<Account>)
      ensures u == currentUser
    {
      u := currentUser;
    }

    /** `logoutUser`: removes the session key; the accounts are untouched. */
    method LogoutUser()
      modifies this
      ensures currentUser == None
      ensures users == old(users)
    {
      currentUser := None;
    }
  }

  /** On a fresh store: the seeded login becomes the session, logging out clears
      it, logging out again changes nothing, and a wrong password is refused. */
  method FreshStoreSession(wrong: string) returns (session: Option<Account>, afterLogout: Option<Account>,
                                                   refused: Result<Account, AuthError>)
    requires wrong != "juan12345"
    ensures session == Some(PredefinedUsers[0])
    ensures afterLogout == None
    ensures refused == Failure(BadCredentials)
  {
    var reg := new Registry();
    var r := reg.LoginUser("juanperez@gmail.com", "juan12345");
    SeedLogin(wrong);
    session := reg.GetCurrentUser();
    reg.LogoutUser();
    reg.LogoutUser();
    afterLogout := reg.GetCurrentUser();
    refused := reg.LoginUser("juanperez@gmail.com", wrong);
  }
}
