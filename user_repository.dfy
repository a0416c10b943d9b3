/**
 * The MongoDB-backed user repository. The `users` collection is a sequence of documents in
 * insertion order; its two unique indexes (the generated `_id` and the `email` field) are the
 * class invariant, and a failure of the store that the model does not see is passed in.
 */
module UserRepository {
  import opened Wrappers
  import opened Text
  import Emails
  import Passwords
  import Users

  /** The store's error code for a write that breaks a unique index. */
  const DuplicateKeyCode := 11000
  const DuplicateMessage := "Email already exists"
  const SavePrefix := "Failed to save user: "

  /** A document of the users collection; `id` is the store-generated `_id` as text. */
  datatype UserDocument = UserDocument(id: string, email: string, password: string, createdAt: int)

  /** An error the store throws for a reason outside the model (lost connection, timeout, ...). */
  datatype StoreError = StoreError(code: Option<int>, message: string)

  /** A repository call, as the repository's collaborators observe it. */
  datatype Call = ExistsByEmailCall(email: string) | SaveCall(user: Users.User)

  /** The result of `save` and the collection after it. */
  datatype Saved = Saved(result: Result<Users.User>, users: seq<UserDocument>)

  /** `toDomain`: rebuild the entity, re-validating the stored address and the id. */
  function ToDomain(doc: UserDocument): Result<Users.User> {
    match Emails.Create(doc.email)
    case Err(message) => Err(message)
    case Ok(email) => Users.New(doc.id, email, Passwords.FromHash(doc.password), doc.createdAt)
  }

  /** The document `save` writes: the entity's id is not used, the store's `_id` is. */
  function ToDocument(user: Users.User, id: string): UserDocument {
    UserDocument(id, user.GetEmail().GetValue(), user.GetPassword().GetHash(), user.GetCreatedAt())
  }

  /** What `countDocuments({email})` reports. */
  function CountByEmail(docs: seq<UserDocument>, email: string): nat {
    if docs == [] then 0
    else (if docs[0].email == email then 1 else 0) + CountByEmail(docs[1..], email)
  }

  /** What `findOne({email})` finds: the first matching document in natural order. */
  function FirstWithEmail(docs: seq<UserDocument>, email: string): Option<UserDocument> {
    if docs == [] then None
    else if docs[0].email == email then Some(docs[0])
    else FirstWithEmail(docs[1..], email)
  }

  /** What `findById(id)` finds. */
  function FirstWithId(docs: seq<UserDocument>, id: string): Option<UserDocument> {
    if docs == [] then None
    else if docs[0].id == id then Some(docs[0])
    else FirstWithId(docs[1..], id)
  }

  /** The unique indexes on `_id` and on `email`. */
  predicate UniqueKeys(docs: seq<UserDocument>) {
    forall i, j | 0 <= i < j < |docs| :: docs[i].email != docs[j].email && docs[i].id != docs[j].id
  }

  /** Writing `doc` would break a unique index. */
  predicate Conflicts(docs: seq<UserDocument>, doc: UserDocument) {
    exists i | 0 <= i < |docs| :: docs[i].email == doc.email || docs[i].id == doc.id
  }

  /** The error `save` throws for a failed write: a duplicate key is reported as a taken address. */
  function SaveError(code: Option<int>, message: string): string {
    if code == Some(DuplicateKeyCode) then DuplicateMessage else SavePrefix + message
  }

  /**
   * `save(user)` over the collection `docs`, with the store assigning `id`. A `failure` of the
   * store stops the write; a unique-index violation is the store's duplicate-key error; a
   * document that is written but does not convert back to an entity is reported as a failure.
   */
  function SaveOutcome(docs: seq<UserDocument>, user: Users.User, id: string, failure: Option<StoreError>): Saved {
    var doc := ToDocument(user, id);
    if failure.Some? then Saved(Err(SaveError(failure.value.code, failure.value.message)), docs)
    else if Conflicts(docs, doc) then Saved(Err(SaveError(Some(DuplicateKeyCode), "")), docs)
    else match ToDomain(doc)
      case Ok(saved) => Saved(Ok(saved), docs + [doc])
      case Err(message) => Saved(Err(SaveError(None, message)), docs + [doc])
  }

  class MongoUserRepository {
    var users: seq<UserDocument>
    ghost var calls: seq<Call>

    ghost predicate Valid()
      reads this
    {
      UniqueKeys(users)
    }

    constructor()
      ensures users == [] && calls == [] && Valid()
    {
      users := [];
      calls := [];
    }

    /**
     * `existsByEmail`: whether the count of documents with this address is positive. `failure`
     * is a rejection of `countDocuments`, which is not caught and reaches the caller as it is.
     */
    method ExistsByEmail(email: Emails.Email, failure: Option<string>) returns (found: Result<bool>)
      modifies this
      ensures failure.Some? ==> found == Err(failure.value)
      ensures failure.None? ==> found.Ok? && (found.value <==> CountByEmail(users, email.GetValue()) > 0)
      ensures users == old(users)
      ensures calls == old(calls) + [ExistsByEmailCall(email.GetValue())]
    {
      calls := calls + [ExistsByEmailCall(email.GetValue())];
      if failure.Some? {
        return Err(failure.value);
      }
      var count := CountByEmail(users, email.GetValue());
      found := Ok(count > 0);
    }

    /** `findByEmail`: `None` for no document, otherwise the first one converted back. */
    function FindByEmail(email: Emails.Email): (r: Option<Result<Users.User>>)
      reads this
      ensures r.None? <==> CountByEmail(users, email.GetValue()) == 0
      ensures r.Some? ==>
        exists i | 0 <= i < |users| :: users[i].email == email.GetValue() && r.value == ToDomain(users[i])
    {
      FirstWithEmailFacts(users, email.GetValue());
      match FirstWithEmail(users, email.GetValue())
      case None => None
      case Some(doc) => Some(ToDomain(doc))
    }

    /** `findById`: `None` for no document, otherwise the document converted back. */
    function FindById(id: string): (r: Option<Result<Users.User>>)
      reads this
      ensures r.None? <==> forall i | 0 <= i < |users| :: users[i].id != id
      ensures r.Some? ==> exists i | 0 <= i < |users| :: users[i].id == id && r.value == ToDomain(users[i])
    {
      FirstWithIdFacts(users, id);
      match FirstWithId(users, id)
      case None => None
      case Some(doc) => Some(ToDomain(doc))
    }

    /**
     * `save(user)` with the store assigning `generatedId`; the unique indexes still hold
     * afterwards, and a saved user is what `findByEmail` then finds.
     */
    method Save(user: Users.User, generatedId: string, failure: Option<StoreError>) returns (r: Result<Users.User>)
      requires Valid()
      modifies this
      ensures Valid()
      ensures Saved(r, users) == SaveOutcome(old(users), user, generatedId, failure)
      ensures r.Ok? ==> FindByEmail(user.GetEmail()) == Some(r)
      ensures calls == old(calls) + [SaveCall(user)]
    {
      SaveKeepsKeysUnique(users, user, generatedId, failure);
      SaveThenFind(users, user, generatedId);
      var doc := ToDocument(user, generatedId);
      calls := calls + [SaveCall(user)];
      if failure.Some? {
        r := Err(SaveError(failure.value.code, failure.value.message));
        return;
      }
      if Conflicts(users, doc) {
        r := Err(SaveError(Some(DuplicateKeyCode), ""));
        return;
      }
      users := users + [doc];
      match ToDomain(doc)
      case Ok(saved) => r := Ok(saved);
      case Err(message) => r := Err(SaveError(None, message));
    }
  }

  // ---------------------------------------------------------------- queries

  /** The count is positive exactly when some document has the address. */
  lemma {:induction false} CountPositiveIffStored(docs: seq<UserDocument>, email: string)
    ensures CountByEmail(docs, email) > 0 <==> exists i | 0 <= i < |docs| :: docs[i].email == email
  {
    if docs != [] {
      CountPositiveIffStored(docs[1..], email);
      if CountByEmail(docs[1..], email) > 0 {
        var i :| 0 <= i < |docs[1..]| && docs[1..][i].email == email;
        assert docs[i + 1].email == email;
      }
      if exists i | 0 <= i < |docs| :: docs[i].email == email {
        var i :| 0 <= i < |docs| && docs[i].email == email;
        if i > 0 {
          assert docs[1..][i - 1].email == email;
        }
      }
    }
  }

  /** `findOne` finds nothing exactly when the count is zero, and what it finds is the first match. */
  lemma {:induction false} FirstWithEmailFacts(docs: seq<UserDocument>, email: string)
    ensures FirstWithEmail(docs, email).None? <==> CountByEmail(docs, email) == 0
    ensures FirstWithEmail(docs, email).Some? ==>
      exists i | 0 <= i < |docs| :: docs[i] == FirstWithEmail(docs, email).value && docs[i].email == email &&
        forall k | 0 <= k < i :: docs[k].email != email
  {
    if docs != [] && docs[0].email != email {
      FirstWithEmailFacts(docs[1..], email);
      if FirstWithEmail(docs[1..], email).Some? {
        var i :| 0 <= i < |docs[1..]| && docs[1..][i] == FirstWithEmail(docs[1..], email).value &&
          docs[1..][i].email == email && forall k | 0 <= k < i :: docs[1..][k].email != email;
        assert docs[i + 1] == docs[1..][i];
        forall k | 0 <= k < i + 1 ensures docs[k].email != email {
          if k > 0 {
            assert docs[k] == docs[1..][k - 1];
          }
        }
      }
    }
  }

  /** `findById` finds nothing exactly when no document has the id, and otherwise one that has it. */
  lemma {:induction false} FirstWithIdFacts(docs: seq<UserDocument>, id: string)
    ensures FirstWithId(docs, id).None? <==> forall i | 0 <= i < |docs| :: docs[i].id != id
    ensures FirstWithId(docs, id).Some? ==>
      FirstWithId(docs, id).value in docs && FirstWithId(docs, id).value.id == id
  {
    if docs != [] && docs[0].id != id {
      FirstWithIdFacts(docs[1..], id);
      forall i | 0 <= i < |docs| && docs[i].id == id ensures FirstWithId(docs[1..], id).Some? {
        assert docs[1..][i - 1] == docs[i];
      }
    }
  }

  /** A document appended after every other one with its address is the one `findOne` finds. */
  lemma {:induction false} FirstWithEmailAppended(docs: seq<UserDocument>, doc: UserDocument)
    requires forall i | 0 <= i < |docs| :: docs[i].email != doc.email
    ensures FirstWithEmail(docs + [doc], doc.email) == Some(doc)
  {
    if docs != [] {
      assert (docs + [doc])[1..] == docs[1..] + [doc];
      FirstWithEmailAppended(docs[1..], doc);
    }
  }

  // ---------------------------------------------------------------- save

  /** A failed write or a duplicate key leaves the collection as it was, with the mapped message. */
  lemma SaveFailures(docs: seq<UserDocument>, user: Users.User, id: string, failure: Option<StoreError>)
    ensures failure.Some? && failure.value.code == Some(DuplicateKeyCode) ==>
      SaveOutcome(docs, user, id, failure) == Saved(Err(DuplicateMessage), docs)
    ensures failure.Some? && failure.value.code != Some(DuplicateKeyCode) ==>
      SaveOutcome(docs, user, id, failure) == Saved(Err(SavePrefix + failure.value.message), docs)
    ensures failure.None? && (exists i | 0 <= i < |docs| :: docs[i].email == user.GetEmail().GetValue()) ==>
      SaveOutcome(docs, user, id, failure) == Saved(Err(DuplicateMessage), docs)
  {
  }

  /**
   * Saving a user whose address is a normalised one, under a fresh non-blank `_id`, stores
   * one more document and returns a user with the store's id (not the entity's), the same
   * address, the same password hash and the same creation time.
   */
  lemma SaveSucceeds(docs: seq<UserDocument>, user: Users.User, id: string)
    requires Emails.Create(user.GetEmail().GetValue()) == Ok(user.GetEmail())
    requires !IsBlank(id)
    requires !Conflicts(docs, ToDocument(user, id))
    ensures SaveOutcome(docs, user, id, None).result.Ok?
    ensures SaveOutcome(docs, user, id, None).users == docs + [ToDocument(user, id)]
    ensures var saved := SaveOutcome(docs, user, id, None).result.value;
      saved.GetId() == id && saved.GetEmail() == user.GetEmail() &&
      saved.GetPassword().GetHash() == user.GetPassword().GetHash() && saved.GetCreatedAt() == user.GetCreatedAt()
  {
    Users.NewIffIdNotBlank(id, user.GetEmail(), Passwords.FromHash(user.GetPassword().GetHash()), user.GetCreatedAt());
  }

  /** `save` keeps both unique indexes. */
  lemma SaveKeepsKeysUnique(docs: seq<UserDocument>, user: Users.User, id: string, failure: Option<StoreError>)
    requires UniqueKeys(docs)
    ensures UniqueKeys(SaveOutcome(docs, user, id, failure).users)
  {
    var doc := ToDocument(user, id);
    if failure.None? && !Conflicts(docs, doc) {
      var after := docs + [doc];
      forall i, j | 0 <= i < j < |after| ensures after[i].email != after[j].email && after[i].id != after[j].id {
        if j == |docs| {
          assert after[i] == docs[i];
        } else {
          assert after[i] == docs[i] && after[j] == docs[j];
        }
      }
    }
  }

  /** After a successful save, `findOne` on the address finds the new document, which converts to the returned user. */
  lemma SaveThenFind(docs: seq<UserDocument>, user: Users.User, id: string)
    ensures var s := SaveOutcome(docs, user, id, None);
      s.result.Ok? ==>
        FirstWithEmail(s.users, user.GetEmail().GetValue()) == Some(ToDocument(user, id)) &&
        ToDomain(ToDocument(user, id)) == s.result
  {
    var doc := ToDocument(user, id);
    if !Conflicts(docs, doc) {
      FirstWithEmailAppended(docs, doc);
    }
  }
}
