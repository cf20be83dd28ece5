/**
 * The request validators: each reads the database, then either refuses
 * the request or hands back its input unchanged.
 */
module Serializers {
  import opened Base
  import opened Models
  import opened Permissions
  import Validators

  const SIGNUP_EMAIL_MAX_LENGTH: nat := 254
  const SIGNUP_USERNAME_MAX_LENGTH: nat := 150
  const TOKEN_USERNAME_MAX_LENGTH: nat := 150
  const CONFIRMATION_CODE_MAX_LENGTH: nat := 200
  const PERSONAL_NAME_MAX_LENGTH: nat := 150
  const RESERVED_USERNAME: string := "me"

  /** A text field: non-empty unless blanks are allowed, and at most `maxLength` long. */
  function CheckText(field: string, value: string, maxLength: Option<nat>, allowBlank: bool): (r: Outcome)
    ensures r == Pass <==> (allowBlank || value != []) && (maxLength.None? || |value| <= maxLength.value)
    ensures r.Fail? ==> r.error == ValidationError(Blank(field)) || r.error == ValidationError(TooLong(field))
  {
    if value == [] && !allowBlank then Fail(ValidationError(Blank(field)))
    else if maxLength.Some? && |value| > maxLength.value then Fail(ValidationError(TooLong(field)))
    else Pass
  }

  datatype SignupData = SignupData(username: string, email: string)

  /** The signup form's fields; `isEmail` stands for the email format check. */
  function SignupFields(d: SignupData, isEmail: string -> bool): (r: Outcome)
    ensures r == Pass <==>
      0 < |d.email| <= SIGNUP_EMAIL_MAX_LENGTH && isEmail(d.email) &&
      0 < |d.username| <= SIGNUP_USERNAME_MAX_LENGTH
    ensures r.Fail? ==> r.error.ValidationError?
  {
    var email := CheckText("email", d.email, Some(SIGNUP_EMAIL_MAX_LENGTH), false);
    if email.Fail? then email
    else if !isEmail(d.email) then Fail(ValidationError(Invalid("email")))
    else CheckText("username", d.username, Some(SIGNUP_USERNAME_MAX_LENGTH), false)
  }

  /**
   * `SignupSerializer.validate`, after the field checks. The existence of
   * the username and of the email are looked up separately: the request
   * passes when both exist or neither does, even when they exist on two
   * different users.
   */
  function ValidateSignup(db: Db, d: SignupData, isEmail: string -> bool): (r: Result<SignupData>)
    ensures r.Ok? <==>
      SignupFields(d, isEmail) == Pass && d.username != RESERVED_USERNAME &&
      UsernameExists(db, d.username) == EmailExists(db, d.email)
    ensures r.Ok? ==> r.value == d
    ensures r.Err? ==> r.error.ValidationError?
    ensures d.username == RESERVED_USERNAME ==> r.Err?
    ensures SignupFields(d, isEmail) == Pass && d.username == RESERVED_USERNAME ==>
      r == Err(ValidationError(ReservedUsername))
    ensures SignupFields(d, isEmail) == Pass && d.username != RESERVED_USERNAME ==>
      (UsernameExists(db, d.username) && !EmailExists(db, d.email) ==> r == Err(ValidationError(UsernameTaken))) &&
      (!UsernameExists(db, d.username) && EmailExists(db, d.email) ==> r == Err(ValidationError(EmailTaken)))
  {
    var fields := SignupFields(d, isEmail);
    var userExists := UsernameExists(db, d.username);
    var emailExists := EmailExists(db, d.email);
    if fields.Fail? then Err(fields.error)
    else if d.username == RESERVED_USERNAME then Err(ValidationError(ReservedUsername))
    else if userExists && !emailExists then Err(ValidationError(UsernameTaken))
    else if !userExists && emailExists then Err(ValidationError(EmailTaken))
    else Ok(d)
  }

  datatype TokenData = TokenData(username: string, confirmationCode: string)

  function TokenFields(d: TokenData): (r: Outcome)
    ensures r == Pass <==>
      0 < |d.username| <= TOKEN_USERNAME_MAX_LENGTH &&
      0 < |d.confirmationCode| <= CONFIRMATION_CODE_MAX_LENGTH
    ensures r.Fail? ==> r.error.ValidationError?
  {
    var username := CheckText("username", d.username, Some(TOKEN_USERNAME_MAX_LENGTH), false);
    if username.Fail? then username
    else CheckText("confirmation_code", d.confirmationCode, Some(CONFIRMATION_CODE_MAX_LENGTH), false)
  }

  /**
   * `TokenSerializer.validate`: an unknown username is "not found", a code
   * that `checkToken` (standing for the token generator's check) rejects is
   * a validation error, and otherwise the data comes back unchanged.
   */
  function ValidateToken(db: Db, d: TokenData, checkToken: (User, string) -> bool): (r: Result<TokenData>)
    ensures r.Ok? ==> r.value == d && TokenFields(d) == Pass
    ensures r.Ok? ==> exists k | k in db.users ::
      db.users[k].username == d.username && checkToken(db.users[k], d.confirmationCode)
    ensures TokenFields(d).Fail? ==> r.Err? && r.error.ValidationError?
    ensures TokenFields(d) == Pass && KeysBelowNext(db) && !UsernameExists(db, d.username) ==>
      r == Err(NotFound)
    ensures (TokenFields(d) == Pass && FindByUsername(db, d.username).Some? &&
             !checkToken(db.users[FindByUsername(db, d.username).value], d.confirmationCode)) ==>
      r == Err(ValidationError(InvalidCode))
    ensures r == Err(ValidationError(InvalidCode)) ==> exists k | k in db.users ::
      db.users[k].username == d.username && !checkToken(db.users[k], d.confirmationCode)
    ensures Valid(db) && TokenFields(d) == Pass && UsernameExists(db, d.username) ==>
      (r.Ok? <==> forall k | k in db.users && db.users[k].username == d.username ::
                    checkToken(db.users[k], d.confirmationCode))
  {
    var fields := TokenFields(d);
    if fields.Fail? then Err(fields.error)
    else match FindByUsername(db, d.username)
      case None => Err(NotFound)
      case Some(k) =>
        if checkToken(db.users[k], d.confirmationCode) then Ok(d) else Err(ValidationError(InvalidCode))
  }

  /** `TitlesSerializer.validate_year`: no year after the current one; no lower bound. */
  function ValidateYear(value: int, currentYear: int): (r: Result<int>)
    ensures r.Ok? <==> value <= currentYear
    ensures r.Ok? ==> r.value == value
    ensures r.Err? ==> r.error == ValidationError(FutureYear)
  {
    if value > currentYear then Err(ValidationError(FutureYear)) else Ok(value)
  }

  /**
   * The title form's year: the model field's validator runs first, then
   * `validate_year`. From 1899 on, exactly the years up to the current one
   * pass, however far back.
   */
  function TitleYear(value: int, currentYear: int): (r: Result<int>)
    ensures currentYear >= 1899 ==> (r.Ok? <==> value <= currentYear)
    ensures r.Ok? ==> r.value == value
    ensures r.Err? ==> r.error.ValidationError?
  {
    match Validators.MyYearValidator(value, currentYear)
    case Fail(e) => Err(e)
    case Pass => ValidateYear(value, currentYear)
  }

  /**
   * `ReviewsSerializer.validate`: on POST the title must exist (else "not
   * found") and must not already have a review by the caller; any other
   * method passes.
   */
  function ValidateReview(db: Db, m: Method, author: nat, title: nat): (r: Outcome)
    ensures m != POST ==> r == Pass
    ensures m == POST ==> (r == Pass <==> title in db.titles && !HasReview(db, author, title))
    ensures m == POST && title !in db.titles ==> r == Fail(NotFound)
    ensures m == POST && title in db.titles && HasReview(db, author, title) ==>
      r == Fail(ValidationError(DuplicateReview))
  {
    if m == POST then
      if title !in db.titles then Fail(NotFound)
      else if HasReview(db, author, title) then Fail(ValidationError(DuplicateReview))
      else Pass
    else Pass
  }

  /** The writable review fields: a non-empty text and a score within 1..10. */
  function ReviewFields(text: string, score: int): (r: Outcome)
    ensures r == Pass <==> text != [] && SCORE_MIN <= score <= SCORE_MAX
    ensures r.Fail? ==> r.error.ValidationError?
  {
    var t := CheckText("text", text, None, false);
    if t.Fail? then t
    else if score < SCORE_MIN || score > SCORE_MAX then Fail(ValidationError(Invalid("score")))
    else Pass
  }

  /** The writable comment field: a non-empty text. */
  function CommentFields(text: string): (r: Outcome)
    ensures r == Pass <==> text != []
    ensures r.Fail? ==> r.error == ValidationError(Blank("text"))
  {
    CheckText("text", text, None, false)
  }

  /** A partial update of a user: the fields present in the request body. */
  datatype UserPatch = UserPatch(
    username: Option<string>,
    email: Option<string>,
    firstName: Option<string>,
    lastName: Option<string>,
    bio: Option<string>,
    role: Option<string>)

  /** The username field of the user form: bounded, matching the pattern, unique among the other users. */
  predicate UsernameAcceptable(db: Db, self: nat, username: string)
  {
    0 < |username| <= USERNAME_MAX_LENGTH && MatchesUsernamePattern(username) &&
    forall k | k in db.users && k != self :: db.users[k].username != username
  }

  /** The email field of the user form: bounded, well formed, unique among the other users. */
  predicate EmailAcceptable(db: Db, self: nat, email: string, isEmail: string -> bool)
  {
    0 < |email| <= EMAIL_MAX_LENGTH && isEmail(email) &&
    forall k | k in db.users && k != self :: db.users[k].email != email
  }

  function CheckUsername(db: Db, self: nat, username: string): (r: Outcome)
    ensures r == Pass <==> UsernameAcceptable(db, self, username)
    ensures r.Fail? ==> r.error.ValidationError?
  {
    var t := CheckText("username", username, Some(USERNAME_MAX_LENGTH), false);
    if t.Fail? then t
    else if !MatchesUsernamePattern(username) then Fail(ValidationError(Invalid("username")))
    else if exists k | k in db.users && k != self :: db.users[k].username == username then
      Fail(ValidationError(NotUnique("username")))
    else Pass
  }

  function CheckEmail(db: Db, self: nat, email: string, isEmail: string -> bool): (r: Outcome)
    ensures r == Pass <==> EmailAcceptable(db, self, email, isEmail)
    ensures r.Fail? ==> r.error.ValidationError?
  {
    var t := CheckText("email", email, Some(EMAIL_MAX_LENGTH), false);
    if t.Fail? then t
    else if !isEmail(email) then Fail(ValidationError(Invalid("email")))
    else if exists k | k in db.users && k != self :: db.users[k].email == email then
      Fail(ValidationError(NotUnique("email")))
    else Pass
  }

  /**
   * The user form on a partial update of user `self`: each field present
   * is checked, an absent one is not. The role must be one of the three
   * choices even though the `me` endpoint then discards it.
   */
  function ValidateUserPatch(db: Db, self: nat, p: UserPatch, isEmail: string -> bool): (r: Outcome)
    ensures r == Pass <==>
      && (p.username.Some? ==> UsernameAcceptable(db, self, p.username.value))
      && (p.email.Some? ==> EmailAcceptable(db, self, p.email.value, isEmail))
      && (p.firstName.Some? ==> |p.firstName.value| <= PERSONAL_NAME_MAX_LENGTH)
      && (p.lastName.Some? ==> |p.lastName.value| <= PERSONAL_NAME_MAX_LENGTH)
      && (p.role.Some? ==> ParseRole(p.role.value).Some?)
    ensures r.Fail? ==> r.error.ValidationError?
  {
    if p.username.Some? && CheckUsername(db, self, p.username.value).Fail? then
      CheckUsername(db, self, p.username.value)
    else if p.email.Some? && CheckEmail(db, self, p.email.value, isEmail).Fail? then
      CheckEmail(db, self, p.email.value, isEmail)
    else if p.firstName.Some? && |p.firstName.value| > PERSONAL_NAME_MAX_LENGTH then
      Fail(ValidationError(TooLong("first_name")))
    else if p.lastName.Some? && |p.lastName.value| > PERSONAL_NAME_MAX_LENGTH then
      Fail(ValidationError(TooLong("last_name")))
    else if p.role.Some? && ParseRole(p.role.value).None? then
      Fail(ValidationError(Invalid("role")))
    else Pass
  }

  /**
   * The rating as the read form shows it: an integer field, so the mean is
   * cut to its integer part; absent stays absent.
   */
  function RatingField(m: Option<Mean>): (r: Option<int>)
    ensures r.None? <==> m.None?
    ensures r.Some? ==> r.value * m.value.count <= m.value.sum < (r.value + 1) * m.value.count
  {
    match m
    case None => None
    case Some(mean) => Some(mean.sum / mean.count)
  }

  /** A quotient of a sum bounded by 1..10 times its count lies in 1..10. */
  lemma QuotientInScoreRange(sum: int, count: Positive)
    requires SCORE_MIN * count <= sum <= SCORE_MAX * count
    ensures SCORE_MIN <= sum / count <= SCORE_MAX
  {
    var q, rem := sum / count, sum % count;
    assert sum == q * count + rem && 0 <= rem < count;
  }

  /** Every score lies in 1..10, so the rating shown does too. */
  lemma RatingFieldInRange(db: Db, title: nat)
    requires Valid(db)
    ensures RatingField(AverageScore(db, title)).Some? ==>
      SCORE_MIN <= RatingField(AverageScore(db, title)).value <= SCORE_MAX
  {
    var m := AverageScore(db, title);
    if m.Some? {
      AverageScoreInRange(db, title);
      QuotientInScoreRange(m.value.sum, m.value.count);
    }
  }

  /** Reviews scoring 8 and 10 on a title with no other review give it the mean 18 / 2, shown as 9. */
  lemma EightAndTenGiveNine(db: Db, t: nat, a: nat, b: nat)
    requires Valid(db) && t in db.titles && a in db.users && b in db.users && a != b
    requires forall k | k in db.reviews :: db.reviews[k].title != t
    ensures InsertReview(db, Review(t, a, "good", 8)).Written?
    ensures InsertReview(InsertReview(db, Review(t, a, "good", 8)).db, Review(t, b, "fine", 10)).Written?
    ensures AverageScore(InsertReview(InsertReview(db, Review(t, a, "good", 8)).db, Review(t, b, "fine", 10)).db, t)
      == Some(Mean(18, 2))
    ensures RatingField(AverageScore(InsertReview(InsertReview(db, Review(t, a, "good", 8)).db, Review(t, b, "fine", 10)).db, t))
      == Some(9)
  {
    var first := InsertReview(db, Review(t, a, "good", 8));
    assert first.Written?;
    InsertReviewMean(db, Review(t, a, "good", 8));
    assert Valid(first.db);
    InsertReviewMean(first.db, Review(t, b, "fine", 10));
  }
}
