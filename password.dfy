/**
 * The `Password` value object: a plain password is checked against the strength rules before
 * it is hashed, and the object itself keeps only the hash.
 */
module Passwords {
  import opened Wrappers
  import opened Text

  const MinLength: nat := 8

  const EmptyMessage := "Password cannot be empty"
  const LengthPrefix := "Password must be at least "
  const LengthMessage := LengthPrefix + NatToString(MinLength) + " characters long"
  /** The opening shared by the three character-class refusals. */
  const ClassPrefix := "Password must contain at least one "
  const UpperMessage := ClassPrefix + "uppercase letter"
  const LowerMessage := ClassPrefix + "lowercase letter"
  const DigitMessage := ClassPrefix + "number"

  /** A password as stored: only the hash is kept, and `getHash` returns it. */
  datatype Password = Password(hashedValue: string) {
    function GetHash(): string { hashedValue }
  }

  /** The regular-expression tests `/[A-Z]/`, `/[a-z]/` and `/[0-9]/`: some character of the class occurs. */
  predicate HasUpper(s: string) { exists i | 0 <= i < |s| :: IsUpper(s[i]) }
  predicate HasLower(s: string) { exists i | 0 <= i < |s| :: IsLower(s[i]) }
  predicate HasDigit(s: string) { exists i | 0 <= i < |s| :: IsDigit(s[i]) }

  /** `Password.validate`: the guards in source order; the first one that fails names the error. */
  function Validate(password: string): Outcome {
    if password == [] || |Trim(password)| == 0 then Fail(EmptyMessage)
    else if |password| < MinLength then Fail(LengthMessage)
    else if !HasUpper(password) then Fail(UpperMessage)
    else if !HasLower(password) then Fail(LowerMessage)
    else if !HasDigit(password) then Fail(DigitMessage)
    else Pass
  }

  /**
   * `Password.create(plain)`: validate, then wrap the hash; `digest` stands for what the hash
   * function returns for `plain`, and is used only when validation passed.
   */
  function Create(plain: string, digest: string): Result<Password> {
    match Validate(plain)
    case Fail(message) => Err(message)
    case Pass => Ok(Password(digest))
  }

  /** `Password.fromHash(h)`: wrap a stored hash; no rule is checked. */
  function FromHash(hash: string): (p: Password)
    ensures p.GetHash() == hash
  {
    Password(hash)
  }

  // ---------------------------------------------------------------- properties

  /** The length message spells out the minimum length. */
  lemma LengthMessageText()
    ensures LengthMessage == "Password must be at least 8 characters long"
  {
    assert NatToString(8) == "8";
  }

  /** A password is accepted exactly when it is not blank, has at least 8 characters and all three classes. */
  lemma ValidateAcceptsIff(password: string)
    ensures Validate(password) == Pass <==>
      !IsBlank(password) && |password| >= MinLength &&
      HasUpper(password) && HasLower(password) && HasDigit(password)
  {
    TrimEmptyIffBlank(password);
  }

  /** Each message is reported exactly when every earlier guard passed and its own guard failed. */
  lemma ValidateFirstFailure(password: string)
    ensures Validate(password) == Fail(EmptyMessage) <==> IsBlank(password)
    ensures Validate(password) == Fail(LengthMessage) <==> !IsBlank(password) && |password| < MinLength
    ensures Validate(password) == Fail(UpperMessage) <==>
      !IsBlank(password) && |password| >= MinLength && !HasUpper(password)
    ensures Validate(password) == Fail(LowerMessage) <==>
      !IsBlank(password) && |password| >= MinLength && HasUpper(password) && !HasLower(password)
    ensures Validate(password) == Fail(DigitMessage) <==>
      !IsBlank(password) && |password| >= MinLength && HasUpper(password) && HasLower(password) &&
      !HasDigit(password)
  {
    TrimEmptyIffBlank(password);
    MessagesDistinct();
  }

  /** The five refusals are different texts. */
  lemma MessagesDistinct()
    ensures |EmptyMessage| == 24 && |LengthMessage| == 43 && |DigitMessage| == 41
    ensures |UpperMessage| == 51 && |LowerMessage| == 51 && UpperMessage != LowerMessage
  {
    LengthMessageText();
    assert UpperMessage[|ClassPrefix|] == 'u' && LowerMessage[|ClassPrefix|] == 'l';
  }

  /** A hash is produced only for a valid password, and a refusal carries the validation message. */
  lemma CreateOnlyIfValid(plain: string, digest: string)
    ensures Create(plain, digest).Ok? <==> Validate(plain) == Pass
    ensures Create(plain, digest).Ok? ==> Create(plain, digest).value.GetHash() == digest
    ensures Validate(plain).Fail? ==> Create(plain, digest) == Err(Validate(plain).message)
  {
  }
}
