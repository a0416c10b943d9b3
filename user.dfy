/** The `User` entity: an id, an address, a password hash and a creation time, fixed at construction. */
module Users {
  import opened Wrappers
  import opened Text
  import Emails
  import Passwords

  const IdMessage := "User ID cannot be empty"

  /**
   * A user. Every field is read-only in the source, so the entity is a value here; `createdAt`
   * is a timestamp in milliseconds.
   */
  datatype User = User(id: string, email: Emails.Email, password: Passwords.Password, createdAt: int) {
    function GetId(): string { id }
    function GetEmail(): Emails.Email { email }
    function GetPassword(): Passwords.Password { password }
    function GetCreatedAt(): int { createdAt }
  }

  /** What `toPublicObject` returns: the id, the address text and the creation time, and no password. */
  datatype PublicUser = PublicUser(id: string, email: string, createdAt: int)

  /**
   * `new User(id, email, password, createdAt)`: refuses a blank id. The source's default
   * `createdAt` (the current time) is passed in by the caller.
   */
  function New(id: string, email: Emails.Email, password: Passwords.Password, createdAt: int): Result<User> {
    if id == [] || |Trim(id)| == 0 then Err(IdMessage)
    else Ok(User(id, email, password, createdAt))
  }

  function ToPublicObject(u: User): PublicUser {
    PublicUser(u.id, u.email.GetValue(), u.createdAt)
  }

  // ---------------------------------------------------------------- properties

  /** A user is built exactly when the id is not blank; a refusal carries the id message. */
  lemma NewIffIdNotBlank(id: string, email: Emails.Email, password: Passwords.Password, createdAt: int)
    ensures New(id, email, password, createdAt).Ok? <==> !IsBlank(id)
    ensures New(id, email, password, createdAt).Err? ==> New(id, email, password, createdAt).message == IdMessage
  {
    TrimEmptyIffBlank(id);
  }

  /** The getters return exactly the constructor's arguments. */
  lemma GettersReturnArguments(id: string, email: Emails.Email, password: Passwords.Password, createdAt: int)
    requires New(id, email, password, createdAt).Ok?
    ensures var u := New(id, email, password, createdAt).value;
      u.GetId() == id && u.GetEmail() == email && u.GetPassword() == password && u.GetCreatedAt() == createdAt
  {
  }

  /**
   * The public projection is the id, the address value and the creation time, and it does not
   * depend on the password: two users that differ only in their password look the same.
   */
  lemma PublicObjectHidesPassword(u: User, other: Passwords.Password)
    ensures ToPublicObject(u) == PublicUser(u.GetId(), u.GetEmail().GetValue(), u.GetCreatedAt())
    ensures ToPublicObject(u.(password := other)) == ToPublicObject(u)
  {
  }
}
