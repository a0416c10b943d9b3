/**
 * The registration use case: build the address, check that it is free, build the password,
 * build the entity under a placeholder id and hand it to the repository.
 */
module CreateUser {
  import opened Wrappers
  import opened Text
  import Emails
  import Passwords
  import Users
  import opened UserRepository

  /** The id the entity carries until the store assigns one. */
  const TempId := "temp-id"

  datatype CreateUserCommand = CreateUserCommand(email: string, password: string)

  /**
   * The user `handle` passes to `save` once every check has passed: the placeholder id, the
   * normalised address, the password built from the hash, and the creation time `now`.
   */
  function Candidate(command: CreateUserCommand, digest: string, now: int): Option<Users.User> {
    match Emails.Create(command.email)
    case Err(_) => None
    case Ok(email) =>
      match Passwords.Create(command.password, digest)
      case Err(_) => None
      case Ok(password) =>
        match Users.New(TempId, email, password, now)
        case Err(_) => None
        case Ok(user) => Some(user)
  }

  /**
   * `handle(command)` over the collection `docs`: the first check that fails decides the error
   * and nothing is written; otherwise the result is what `save` returns. `digest` is the hash of
   * the password, `now` the creation time, `id` the `_id` the store would assign and `failure`
   * a store failure during `save`.
   */
  function Register(docs: seq<UserDocument>, command: CreateUserCommand, digest: string, now: int,
                    countFailure: Option<string>, id: string, failure: Option<StoreError>): Saved
  {
    match Emails.Create(command.email)
    case Err(message) => Saved(Err(message), docs)
    case Ok(email) =>
      if countFailure.Some? then Saved(Err(countFailure.value), docs)
      else if CountByEmail(docs, email.GetValue()) > 0 then Saved(Err(DuplicateMessage), docs)
      else match Passwords.Create(command.password, digest)
        case Err(message) => Saved(Err(message), docs)
        case Ok(password) =>
          match Users.New(TempId, email, password, now)
          case Err(message) => Saved(Err(message), docs)
          case Ok(user) => SaveOutcome(docs, user, id, failure)
  }

  /** The repository calls `handle` makes, in order. */
  function CallsMade(docs: seq<UserDocument>, command: CreateUserCommand, digest: string, now: int,
                     countFailure: Option<string>): seq<Call> {
    match Emails.Create(command.email)
    case Err(_) => []
    case Ok(email) =>
      if countFailure.Some? || CountByEmail(docs, email.GetValue()) > 0 then [ExistsByEmailCall(email.GetValue())]
      else match Candidate(command, digest, now)
        case None => [ExistsByEmailCall(email.GetValue())]
        case Some(user) => [ExistsByEmailCall(email.GetValue()), SaveCall(user)]
  }

  /** `CreateUserCommandHandler.handle`, over the MongoDB repository. */
  method Handle(repository: MongoUserRepository, command: CreateUserCommand, digest: string, now: int,
                countFailure: Option<string>, generatedId: string, failure: Option<StoreError>) returns (r: Result<Users.User>)
    requires repository.Valid()
    modifies repository
    ensures repository.Valid()
    ensures Saved(r, repository.users) == Register(old(repository.users), command, digest, now, countFailure, generatedId, failure)
    ensures repository.calls == old(repository.calls) + CallsMade(old(repository.users), command, digest, now, countFailure)
  {
    var email := Emails.Create(command.email);
    if email.Err? {
      return Err(email.message);
    }
    var taken := repository.ExistsByEmail(email.value, countFailure);
    if taken.Err? {
      return Err(taken.message);
    }
    if taken.value {
      return Err(DuplicateMessage);
    }
    var password := Passwords.Create(command.password, digest);
    if password.Err? {
      return Err(password.message);
    }
    var user := Users.New(TempId, email.value, password.value, now);
    if user.Err? {
      return Err(user.message);
    }
    r := repository.Save(user.value, generatedId, failure);
  }

  // ---------------------------------------------------------------- properties

  /** An address that does not validate fails first, with its own message, before any repository call. */
  lemma InvalidEmailFailsFirst(docs: seq<UserDocument>, command: CreateUserCommand, digest: string, now: int,
                               countFailure: Option<string>, id: string, failure: Option<StoreError>)
    requires Emails.Create(command.email).Err?
    ensures Register(docs, command, digest, now, countFailure, id, failure) == Saved(Err(Emails.Create(command.email).message), docs)
    ensures CallsMade(docs, command, digest, now, countFailure) == []
  {
  }

  /**
   * A taken address fails with the duplicate message whatever the password, after one
   * `existsByEmail` call and without `save`.
   */
  lemma TakenEmailFails(docs: seq<UserDocument>, command: CreateUserCommand, digest: string, now: int,
                        countFailure: Option<string>, id: string, failure: Option<StoreError>)
    requires Emails.Create(command.email).Ok?
    requires countFailure.None?
    requires exists i | 0 <= i < |docs| :: docs[i].email == Emails.Create(command.email).value.GetValue()
    ensures Register(docs, command, digest, now, countFailure, id, failure) == Saved(Err(DuplicateMessage), docs)
    ensures CallsMade(docs, command, digest, now, countFailure) == [ExistsByEmailCall(Emails.Create(command.email).value.GetValue())]
  {
    CountPositiveIffStored(docs, Emails.Create(command.email).value.GetValue());
  }

  /**
   * A failing `existsByEmail` (the count is rejected) fails the call with the store's message,
   * after that one call, before the password is looked at, and writes nothing.
   */
  lemma CountFailurePropagates(docs: seq<UserDocument>, command: CreateUserCommand, digest: string, now: int,
                               countFailure: Option<string>, id: string, failure: Option<StoreError>)
    requires Emails.Create(command.email).Ok?
    requires countFailure.Some?
    ensures Register(docs, command, digest, now, countFailure, id, failure) == Saved(Err(countFailure.value), docs)
    ensures CallsMade(docs, command, digest, now, countFailure) == [ExistsByEmailCall(Emails.Create(command.email).value.GetValue())]
  {
  }

  /** A weak password on a free address fails with the password's message, without `save`. */
  lemma WeakPasswordFails(docs: seq<UserDocument>, command: CreateUserCommand, digest: string, now: int,
                          countFailure: Option<string>, id: string, failure: Option<StoreError>)
    requires Emails.Create(command.email).Ok?
    requires countFailure.None?
    requires forall i | 0 <= i < |docs| :: docs[i].email != Emails.Create(command.email).value.GetValue()
    requires Passwords.Validate(command.password).Fail?
    ensures Register(docs, command, digest, now, countFailure, id, failure) ==
      Saved(Err(Passwords.Validate(command.password).message), docs)
    ensures CallsMade(docs, command, digest, now, countFailure) == [ExistsByEmailCall(Emails.Create(command.email).value.GetValue())]
  {
    CountPositiveIffStored(docs, Emails.Create(command.email).value.GetValue());
  }

  /** The address is valid, the count answered that it is not yet stored, and the password is valid. */
  predicate ChecksPass(docs: seq<UserDocument>, command: CreateUserCommand, countFailure: Option<string>) {
    Emails.Create(command.email).Ok? && countFailure.None? &&
    (forall i | 0 <= i < |docs| :: docs[i].email != Emails.Create(command.email).value.GetValue()) &&
    Passwords.Validate(command.password) == Pass
  }

  /**
   * `save` is called exactly when the address is valid and free and the password is valid;
   * it is called once, after `existsByEmail`, with the placeholder id, the normalised address,
   * the hash and the creation time, and its result is the handler's result.
   */
  lemma SaveOnlyWhenAllChecksPass(docs: seq<UserDocument>, command: CreateUserCommand, digest: string, now: int,
                                  countFailure: Option<string>, id: string, failure: Option<StoreError>)
    ensures (exists user :: SaveCall(user) in CallsMade(docs, command, digest, now, countFailure)) <==> ChecksPass(docs, command, countFailure)
    ensures ChecksPass(docs, command, countFailure) ==>
        var email := Emails.Create(command.email).value;
        var user := Users.User(TempId, email, Passwords.Password(digest), now);
        CallsMade(docs, command, digest, now, countFailure) == [ExistsByEmailCall(email.GetValue()), SaveCall(user)] &&
        email.GetValue() == ToLower(Trim(command.email)) &&
        Register(docs, command, digest, now, countFailure, id, failure) == SaveOutcome(docs, user, id, failure)
  {
    if Emails.Create(command.email).Ok? {
      var email := Emails.Create(command.email).value;
      CountPositiveIffStored(docs, email.GetValue());
      Emails.CreateNormalises(command.email);
      Users.NewIffIdNotBlank(TempId, email, Passwords.Password(digest), now);
      assert !IsBlank(TempId) by {
        assert !IsSpace(TempId[0]);
      }
    }
  }

  /**
   * Every failure leaves the collection as it was (for any `_id` the store can assign, which
   * is never blank); a success adds exactly the new document, under the store's id.
   */
  lemma UnchangedUnlessSaved(docs: seq<UserDocument>, command: CreateUserCommand, digest: string, now: int,
                             countFailure: Option<string>, id: string, failure: Option<StoreError>)
    requires !IsBlank(id)
    ensures var s := Register(docs, command, digest, now, countFailure, id, failure);
      s.result.Err? ==> s.users == docs
    ensures var s := Register(docs, command, digest, now, countFailure, id, failure);
      s.result.Ok? ==>
        s.users == docs + [ToDocument(Candidate(command, digest, now).value, id)] &&
        s.result.value.GetId() == id &&
        s.result.value.GetEmail() == Emails.Create(command.email).value &&
        s.result.value.GetPassword().GetHash() == digest
  {
    var s := Register(docs, command, digest, now, countFailure, id, failure);
    var candidate := Candidate(command, digest, now);
    if candidate.Some? && failure.None? {
      var user := candidate.value;
      var email := Emails.Create(command.email).value;
      assert user.GetEmail() == email;
      Emails.CreateIdempotent(command.email);
      if !Conflicts(docs, ToDocument(user, id)) && CountByEmail(docs, email.GetValue()) == 0 {
        SaveSucceeds(docs, user, id);
      }
    }
  }
}
