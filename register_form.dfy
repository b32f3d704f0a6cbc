/** The registration screen's submit handler: an ordered chain of guards on
    the form, then a call into the account registry. */
module RegisterForm {
  import opened Wrappers
  import Decimal
  import Accounts

  datatype FormError = MissingField | PasswordMismatch | PasswordTooShort

  const MinPasswordLength: nat := 6

  /** The alert text shown for each rejected form. */
  function Message(e: FormError): string
  {
    match e
    case MissingField => "Por favor completa todos los campos"
    case PasswordMismatch => "Las contraseñas no coinciden"
    case PasswordTooShort => "La contraseña debe tener al menos 6 caracteres"
  }

  /** The guards in order (every field filled, passwords equal, password long
      enough) and, when all pass, the account built from the form. Only the
      first failing guard is reported. */
  function Validate(username: string, email: string, password: string, confirm: string, now: nat)
    : (r: Result<Accounts.Account, FormError>)
    ensures r == Failure(MissingField) <==> username == "" || email == "" || password == "" || confirm == ""
    ensures r == Failure(PasswordMismatch) <==>
              username != "" && email != "" && password != "" && confirm != "" && password != confirm
    ensures r == Failure(PasswordTooShort) <==>
              username != "" && email != "" && password != "" && confirm != "" && password == confirm &&
              |password| < MinPasswordLength
    ensures r.Success? ==>
              && username != "" && email != "" && password == confirm && |password| >= MinPasswordLength
              && r.value == Accounts.Account(Decimal.ToDecimal(now), username, email, password)
  {
    if username == "" || email == "" || password == "" || confirm == "" then Failure(MissingField)
    else if password != confirm then Failure(PasswordMismatch)
    else if |password| < MinPasswordLength then Failure(PasswordTooShort)
    else Success(Accounts.Account(Decimal.ToDecimal(now), username, email, password))
  }

  /** A filled form whose matching password is long enough is always accepted. */
  lemma ValidFormAccepted(username: string, email: string, password: string, now: nat)
    requires username != "" && email != "" && |password| >= MinPasswordLength
    ensures Validate(username, email, password, password, now).Success?
    ensures Validate(username, email, password, password, now).value.id != ""
  {
  }

  datatype Outcome = Registered | Rejected(message: string)

  /** `handleRegister`: a rejected form never reaches the registry (which is
      left exactly as it was); an accepted one is registered and the
      registry's error, if any, is shown. */
  method HandleRegister(registry: Accounts.Registry, username: string, email: string, password: string,
                        confirm: string, now: nat) returns (o: Outcome)
    requires registry.Valid()
    modifies registry
    ensures registry.Valid()
    ensures registry.currentUser == old(registry.currentUser)
    ensures match Validate(username, email, password, confirm, now)
      case Failure(e) =>
        o == Rejected(Message(e)) && registry.users == old(registry.users)
      case Success(account) =>
        match Accounts.Register(Accounts.Initialized(old(registry.users)), account)
        case Success(after) => o == Registered && registry.users == Some(after)
        case Failure(e) =>
          o == Rejected(Accounts.Message(e)) && registry.users == Some(Accounts.Initialized(old(registry.users)))
  {
    if username == "" || email == "" || password == "" || confirm == "" {
      return Rejected(Message(MissingField));
    }
    if password != confirm {
      return Rejected(Message(PasswordMismatch));
    }
    if |password| < MinPasswordLength {
      return Rejected(Message(PasswordTooShort));
    }
    var newUser := Accounts.Account(Decimal.ToDecimal(now), username, email, password);
    var r := registry.RegisterUser(newUser);
    if r.Success? {
      o := Registered;
    } else {
      o := Rejected(Accounts.Message(r.error));
    }
  }
}
