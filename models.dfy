/**
 * The tables of the review site and the rules the schema puts on them:
 * the user roles and the capabilities derived from them, the field bounds,
 * the uniqueness constraints, the score range, the foreign keys and what
 * deleting a row takes with it.
 */
module Models {
  import opened Base

  // The three values of the role column and the field bounds of the schema.
  const USER: string := "user"
  const MODERATOR: string := "moderator"
  const ADMIN: string := "admin"

  const USERNAME_MAX_LENGTH: nat := 150
  const EMAIL_MAX_LENGTH: nat := 254
  const SCORE_MIN: int := 1
  const SCORE_MAX: int := 10

  datatype Role = UserRole | ModeratorRole | AdminRole {
    /** The string stored in the role column for this role. */
    function Value(): string
    {
      match this
      case UserRole => USER
      case ModeratorRole => MODERATOR
      case AdminRole => ADMIN
    }
  }

  /** A new user gets this role unless one is given. */
  const DEFAULT_ROLE: Role := UserRole

  /** Reads a role column value; only the three choices are roles. */
  function ParseRole(s: string): (r: Option<Role>)
    ensures r.Some? <==> s == USER || s == MODERATOR || s == ADMIN
    ensures r.Some? ==> r.value.Value() == s
  {
    if s == USER then Some(UserRole)
    else if s == MODERATOR then Some(ModeratorRole)
    else if s == ADMIN then Some(AdminRole)
    else None
  }

  /** Storing a role and reading it back gives the same role. */
  lemma ParseRoleValue(role: Role)
    ensures ParseRole(role.Value()) == Some(role)
  {
  }

  /** A Python value, as far as `or` and `==` in the role properties see it. */
  datatype PyValue = PyStr(s: string) | PyBool(b: bool)

  predicate Truthy(v: PyValue)
  {
    match v
    case PyStr(s) => s != []
    case PyBool(b) => b
  }

  /** Python's `a or b`: `a` itself when it is truthy, `b` otherwise. */
  function PyOr(a: PyValue, b: PyValue): (r: PyValue)
    ensures Truthy(r) <==> Truthy(a) || Truthy(b)
    ensures Truthy(a) ==> r == a
    ensures !Truthy(a) ==> r == b
  {
    if Truthy(a) then a else b
  }

  /** A row of the user table. The id is the key of the table, not a field. */
  datatype User = User(
    username: string,
    email: string,
    role: Role,
    isSuperuser: bool,
    isStaff: bool,
    firstName: string,
    lastName: string,
    bio: string)

  /** `is_admin`: the admin role, or either of the superuser and staff flags. */
  predicate IsAdmin(u: User)
    ensures IsAdmin(u) <==> u.role == AdminRole || u.isSuperuser || u.isStaff
  {
    Truthy(PyOr(PyOr(PyBool(u.role.Value() == ADMIN), PyBool(u.isSuperuser)), PyBool(u.isStaff)))
  }

  /**
   * `is_moderator` as written: the role is compared with the value of the
   * parenthesised `or`, and that value is the non-empty string "moderator"
   * whatever the two flags are, so only the role decides.
   */
  predicate IsModerator(u: User)
    ensures IsModerator(u) <==> u.role == ModeratorRole
  {
    PyStr(u.role.Value()) == PyOr(PyOr(PyStr(MODERATOR), PyBool(u.isSuperuser)), PyBool(u.isStaff))
  }

  /** `is_user`: the plain user role. */
  predicate IsUser(u: User)
    ensures IsUser(u) <==> u.role == UserRole
  {
    u.role.Value() == USER
  }

  /** A character of the class `[\w.@+-]` (ASCII reading of `\w`). */
  predicate IsUsernameChar(c: char)
  {
    'a' <= c <= 'z' || 'A' <= c <= 'Z' || '0' <= c <= '9' || c == '_' ||
    c == '.' || c == '@' || c == '+' || c == '-'
  }

  /** The username pattern `^[\w.@+-]+$`. */
  predicate MatchesUsernamePattern(s: string)
  {
    |s| > 0 && forall i :: 0 <= i < |s| ==> IsUsernameChar(s[i])
  }

  /** Letters, digits and `_.@+-` pass; a space, a slash or the empty string do not. */
  lemma UsernamePatternExamples()
    ensures MatchesUsernamePattern("j.doe@mail+1-x_2")
    ensures !MatchesUsernamePattern("j doe") && !MatchesUsernamePattern("a/b") && !MatchesUsernamePattern("")
  {
    assert !IsUsernameChar(("j doe")[1]);
    assert !IsUsernameChar(("a/b")[1]);
  }

  datatype Category = Category(name: string, slug: string)
  datatype Genre = Genre(name: string, slug: string)
  /** A title belongs to one category and to a set of genres (the many-to-many links). */
  datatype Title = Title(category: nat, genres: set<nat>, name: string, year: int, description: string)
  datatype Review = Review(title: nat, author: nat, text: string, score: int)
  datatype Comment = Comment(review: nat, author: nat, text: string)

  /** The database: one map per table from primary key to row, and the next key to hand out. */
  datatype Db = Db(
    users: map<nat, User>,
    categories: map<nat, Category>,
    genres: map<nat, Genre>,
    titles: map<nat, Title>,
    reviews: map<nat, Review>,
    comments: map<nat, Comment>,
    nextId: nat)

  // Queries over the user and review tables.

  predicate UsernameExists(db: Db, username: string)
  {
    exists k | k in db.users :: db.users[k].username == username
  }

  predicate EmailExists(db: Db, email: string)
  {
    exists k | k in db.users :: db.users[k].email == email
  }

  /** Some review of `title` is by `author`. */
  predicate HasReview(db: Db, author: nat, title: nat)
  {
    exists k | k in db.reviews :: db.reviews[k].author == author && db.reviews[k].title == title
  }

  /** The highest key below `n` of a user that `matches`, if there is one. */
  function FindUserBelow(users: map<nat, User>, matches: User -> bool, n: nat): (r: Option<nat>)
    ensures r.Some? ==> r.value in users && r.value < n && matches(users[r.value])
    ensures r.None? ==> forall k | k in users && k < n :: !matches(users[k])
  {
    if n == 0 then None
    else if n - 1 in users && matches(users[n - 1]) then Some(n - 1)
    else FindUserBelow(users, matches, n - 1)
  }

  /** The user with this username (a `get` on the unique column). */
  function FindByUsername(db: Db, username: string): (r: Option<nat>)
    ensures r.Some? ==> r.value in db.users && db.users[r.value].username == username
    ensures KeysBelowNext(db) ==> (r.None? <==> !UsernameExists(db, username))
  {
    FindUserBelow(db.users, (u: User) => u.username == username, db.nextId)
  }

  /** The user with exactly this username and this email. */
  function FindByPair(db: Db, username: string, email: string): (r: Option<nat>)
    ensures r.Some? ==> r.value in db.users && db.users[r.value].username == username
    ensures r.Some? ==> db.users[r.value].email == email
    ensures KeysBelowNext(db) && r.None? ==>
      forall k | k in db.users :: db.users[k].username != username || db.users[k].email != email
  {
    FindUserBelow(db.users, (u: User) => u.username == username && u.email == email, db.nextId)
  }

  /** Every key in use is below the next key to hand out. */
  ghost predicate KeysBelowNext(db: Db)
  {
    && (forall k | k in db.users :: k < db.nextId)
    && (forall k | k in db.categories :: k < db.nextId)
    && (forall k | k in db.genres :: k < db.nextId)
    && (forall k | k in db.titles :: k < db.nextId)
    && (forall k | k in db.reviews :: k < db.nextId)
    && (forall k | k in db.comments :: k < db.nextId)
  }

  /** Usernames and emails are non-empty, within their lengths and unique. */
  ghost predicate UsersValid(users: map<nat, User>)
  {
    && (forall k | k in users ::
          0 < |users[k].username| <= USERNAME_MAX_LENGTH && 0 < |users[k].email| <= EMAIL_MAX_LENGTH)
    && (forall a, b | a in users && b in users && a != b ::
          users[a].username != users[b].username && users[a].email != users[b].email)
  }

  /** Category slugs are unique, and so are genre slugs. */
  ghost predicate SlugsUnique(db: Db)
  {
    && (forall a, b | a in db.categories && b in db.categories && a != b ::
          db.categories[a].slug != db.categories[b].slug)
    && (forall a, b | a in db.genres && b in db.genres && a != b ::
          db.genres[a].slug != db.genres[b].slug)
  }

  ghost predicate TitlesLinked(db: Db)
  {
    forall t | t in db.titles :: db.titles[t].category in db.categories && db.titles[t].genres <= db.genres.Keys
  }

  /** Every review points at a stored title and user and has a score in range. */
  ghost predicate ReviewsValid(db: Db)
  {
    forall k | k in db.reviews ::
      && db.reviews[k].title in db.titles
      && db.reviews[k].author in db.users
      && SCORE_MIN <= db.reviews[k].score <= SCORE_MAX
  }

  /** The unique constraint on (author, title). */
  ghost predicate OneReviewPerAuthorAndTitle(reviews: map<nat, Review>)
  {
    forall a, b | a in reviews && b in reviews && a != b ::
      reviews[a].author != reviews[b].author || reviews[a].title != reviews[b].title
  }

  ghost predicate CommentsLinked(db: Db)
  {
    forall c | c in db.comments :: db.comments[c].review in db.reviews && db.comments[c].author in db.users
  }

  /** Everything the schema guarantees of a database. */
  ghost predicate Valid(db: Db)
  {
    && KeysBelowNext(db)
    && UsersValid(db.users)
    && SlugsUnique(db)
    && TitlesLinked(db)
    && ReviewsValid(db)
    && OneReviewPerAuthorAndTitle(db.reviews)
    && CommentsLinked(db)
  }

  /**
   * What a consistent database promises, row by row: a username or an
   * e-mail picks out at most one user, an author has at most one review
   * of a title, every score lies in 1..10, and every reference points at
   * a stored row. The empty database is consistent.
   */
  lemma SchemaConstraints(db: Db)
    requires Valid(db)
    ensures forall a, b | a in db.users && b in db.users && db.users[a].username == db.users[b].username :: a == b
    ensures forall a, b | a in db.users && b in db.users && db.users[a].email == db.users[b].email :: a == b
    ensures forall a, b | a in db.reviews && b in db.reviews &&
      db.reviews[a].author == db.reviews[b].author && db.reviews[a].title == db.reviews[b].title :: a == b
    ensures forall k | k in db.reviews :: SCORE_MIN <= db.reviews[k].score <= SCORE_MAX
    ensures forall k | k in db.reviews :: db.reviews[k].title in db.titles && db.reviews[k].author in db.users
    ensures forall c | c in db.comments :: db.comments[c].review in db.reviews && db.comments[c].author in db.users
    ensures forall t | t in db.titles :: db.titles[t].category in db.categories
    ensures forall t | t in db.titles :: db.titles[t].genres <= db.genres.Keys
    ensures forall a, b | a in db.categories && b in db.categories &&
      db.categories[a].slug == db.categories[b].slug :: a == b
    ensures forall a, b | a in db.genres && b in db.genres && db.genres[a].slug == db.genres[b].slug :: a == b
    ensures Valid(Db(map[], map[], map[], map[], map[], map[], 0))
  {
  }

  /** `small` keeps some rows of `big`, each unchanged. */
  ghost predicate SubTable<V>(small: map<nat, V>, big: map<nat, V>)
  {
    forall k | k in small :: k in big && small[k] == big[k]
  }

  /** What an INSERT does: the row is written under a new key, or a constraint refuses it. */
  datatype Write = Written(key: nat, db: Db) | Refused

  /** Inserting a user; the unique username and email columns refuse a clash. */
  function InsertUser(db: Db, u: User): (r: Write)
    ensures r.Written? <==> !UsernameExists(db, u.username) && !EmailExists(db, u.email)
    ensures r.Written? ==> r.key == db.nextId && r.db == db.(users := db.users[r.key := u], nextId := db.nextId + 1)
    ensures (Valid(db) && r.Written? && 0 < |u.username| <= USERNAME_MAX_LENGTH &&
             0 < |u.email| <= EMAIL_MAX_LENGTH) ==> Valid(r.db)
  {
    if UsernameExists(db, u.username) || EmailExists(db, u.email) then Refused
    else Written(db.nextId, db.(users := db.users[db.nextId := u], nextId := db.nextId + 1))
  }

  /**
   * Inserting a review; the foreign keys, the non-negative score column and
   * the (author, title) unique constraint refuse a bad row. The 1..10 range
   * is a form rule, not a column constraint.
   */
  function InsertReview(db: Db, rv: Review): (r: Write)
    ensures r.Written? <==>
      rv.title in db.titles && rv.author in db.users && rv.score >= 0 && !HasReview(db, rv.author, rv.title)
    ensures r.Written? ==> r.key == db.nextId && r.db == db.(reviews := db.reviews[r.key := rv], nextId := db.nextId + 1)
    ensures Valid(db) && r.Written? && SCORE_MIN <= rv.score <= SCORE_MAX ==> Valid(r.db)
  {
    if rv.title !in db.titles || rv.author !in db.users || rv.score < 0 || HasReview(db, rv.author, rv.title) then Refused
    else Written(db.nextId, db.(reviews := db.reviews[db.nextId := rv], nextId := db.nextId + 1))
  }

  /** Inserting a comment; the foreign keys refuse a missing review or author. */
  function InsertComment(db: Db, c: Comment): (r: Write)
    ensures r.Written? <==> c.review in db.reviews && c.author in db.users
    ensures r.Written? ==> r.key == db.nextId && r.db == db.(comments := db.comments[r.key := c], nextId := db.nextId + 1)
    ensures Valid(db) && r.Written? ==> Valid(r.db)
  {
    if c.review !in db.reviews || c.author !in db.users then Refused
    else Written(db.nextId, db.(comments := db.comments[db.nextId := c], nextId := db.nextId + 1))
  }

  /** A second review of one title by one author is refused and changes nothing. */
  lemma SecondReviewRefused(db: Db, first: nat, rv: Review)
    requires first in db.reviews && db.reviews[first].author == rv.author && db.reviews[first].title == rv.title
    ensures InsertReview(db, rv) == Refused
  {
  }

  /** Deletes the reviews in `gone` and, by cascade, every comment on them. */
  function RemoveReviews(db: Db, gone: set<nat>): (r: Db)
    ensures r.reviews.Keys == db.reviews.Keys - gone && SubTable(r.reviews, db.reviews)
    ensures forall c :: c in r.comments <==> c in db.comments && db.comments[c].review !in gone
    ensures SubTable(r.comments, db.comments)
    ensures r.users == db.users && r.categories == db.categories && r.genres == db.genres
    ensures r.titles == db.titles && r.nextId == db.nextId
  {
    db.(reviews := db.reviews - gone,
        comments := map c | c in db.comments && db.comments[c].review !in gone :: db.comments[c])
  }

  /** Deletes the titles in `gone` and, by cascade, their reviews and those reviews' comments. */
  function RemoveTitles(db: Db, gone: set<nat>): (r: Db)
    ensures r.titles.Keys == db.titles.Keys - gone && SubTable(r.titles, db.titles)
    ensures forall k :: k in r.reviews <==> k in db.reviews && db.reviews[k].title !in gone
    ensures SubTable(r.reviews, db.reviews)
    ensures CommentsLinked(db) ==>
      forall c :: c in r.comments <==> c in db.comments && db.comments[c].review in r.reviews
    ensures SubTable(r.comments, db.comments)
    ensures r.users == db.users && r.categories == db.categories && r.genres == db.genres
    ensures r.nextId == db.nextId
  {
    var reviewsGone := set k | k in db.reviews && db.reviews[k].title in gone;
    RemoveReviews(db.(titles := db.titles - gone), reviewsGone)
  }

  /** Deleting a comment; no other row refers to comments. */
  function DeleteComment(db: Db, id: nat): (r: Db)
    ensures r.comments.Keys == db.comments.Keys - {id} && SubTable(r.comments, db.comments)
    ensures r.users == db.users && r.categories == db.categories && r.genres == db.genres
    ensures r.titles == db.titles && r.reviews == db.reviews && r.nextId == db.nextId
    ensures Valid(db) ==> Valid(r)
  {
    db.(comments := db.comments - {id})
  }

  /** Deleting a review deletes its comments. */
  function DeleteReview(db: Db, id: nat): (r: Db)
    ensures r.reviews.Keys == db.reviews.Keys - {id} && SubTable(r.reviews, db.reviews)
    ensures forall c :: c in r.comments <==> c in db.comments && db.comments[c].review != id
    ensures SubTable(r.comments, db.comments)
    ensures r.users == db.users && r.titles == db.titles && r.categories == db.categories && r.genres == db.genres
    ensures r.nextId == db.nextId
    ensures Valid(db) ==> Valid(r)
  {
    RemoveReviews(db, {id})
  }

  /** Deleting a title deletes its reviews and their comments. */
  function DeleteTitle(db: Db, id: nat): (r: Db)
    ensures r.titles.Keys == db.titles.Keys - {id} && SubTable(r.titles, db.titles)
    ensures forall k :: k in r.reviews <==> k in db.reviews && db.reviews[k].title != id
    ensures Valid(db) ==> forall c :: c in r.comments <==> c in db.comments && db.comments[c].review in r.reviews
    ensures SubTable(r.reviews, db.reviews) && SubTable(r.comments, db.comments)
    ensures r.users == db.users && r.categories == db.categories && r.genres == db.genres
    ensures r.nextId == db.nextId
    ensures Valid(db) ==> Valid(r)
  {
    RemoveTitles(db, {id})
  }

  /** Deleting a category deletes its titles, their reviews and those reviews' comments. */
  function DeleteCategory(db: Db, id: nat): (r: Db)
    ensures r.categories.Keys == db.categories.Keys - {id} && SubTable(r.categories, db.categories)
    ensures forall t :: t in r.titles <==> t in db.titles && db.titles[t].category != id
    ensures Valid(db) ==> forall k :: k in r.reviews <==> k in db.reviews && db.reviews[k].title in r.titles
    ensures Valid(db) ==> forall c :: c in r.comments <==> c in db.comments && db.comments[c].review in r.reviews
    ensures SubTable(r.titles, db.titles) && SubTable(r.reviews, db.reviews) && SubTable(r.comments, db.comments)
    ensures r.users == db.users && r.genres == db.genres && r.nextId == db.nextId
    ensures Valid(db) ==> Valid(r)
  {
    var gone := set t | t in db.titles && db.titles[t].category == id;
    RemoveTitles(db.(categories := db.categories - {id}), gone)
  }

  /** Deleting a genre deletes only its links to titles; the titles stay. */
  function DeleteGenre(db: Db, id: nat): (r: Db)
    ensures r.genres.Keys == db.genres.Keys - {id} && SubTable(r.genres, db.genres)
    ensures r.titles.Keys == db.titles.Keys
    ensures forall t | t in r.titles :: r.titles[t] == db.titles[t].(genres := db.titles[t].genres - {id})
    ensures r.reviews == db.reviews && r.comments == db.comments && r.users == db.users
    ensures r.categories == db.categories && r.nextId == db.nextId
    ensures Valid(db) ==> Valid(r)
  {
    db.(genres := db.genres - {id},
        titles := map t | t in db.titles :: db.titles[t].(genres := db.titles[t].genres - {id}))
  }

  /** Removing reviews together with their comments never breaks the schema. */
  lemma RemoveReviewsKeepsValid(db: Db, gone: set<nat>)
    ensures Valid(db) ==> Valid(RemoveReviews(db, gone))
  {
  }

  /** Deletes the user `id` and that user's comments, once none of the user's reviews is left. */
  function RemoveUserRow(db: Db, id: nat): (r: Db)
    ensures r.users.Keys == db.users.Keys - {id} && SubTable(r.users, db.users)
    ensures forall c :: c in r.comments <==> c in db.comments && db.comments[c].author != id
    ensures SubTable(r.comments, db.comments)
    ensures r.reviews == db.reviews && r.titles == db.titles
    ensures r.categories == db.categories && r.genres == db.genres && r.nextId == db.nextId
  {
    db.(users := db.users - {id},
        comments := map c | c in db.comments && db.comments[c].author != id :: db.comments[c])
  }

  lemma RemoveUserRowKeepsValid(db: Db, id: nat)
    requires Valid(db) && (forall k | k in db.reviews :: db.reviews[k].author != id)
    ensures Valid(RemoveUserRow(db, id))
  {
    var r := RemoveUserRow(db, id);
    SubTableKeepsUsersValid(r.users, db.users);
    assert ReviewsValid(r);
    assert CommentsLinked(r);
  }

  /** Dropping users keeps the remaining ones unique and within bounds. */
  lemma SubTableKeepsUsersValid(small: map<nat, User>, big: map<nat, User>)
    requires UsersValid(big) && SubTable(small, big)
    ensures UsersValid(small)
  {
  }

  /** Rewriting user rows in place, keeping every key, keeps the schema if the new rows do. */
  lemma ReplaceUsersKeepsValid(db: Db, users: map<nat, User>)
    requires Valid(db) && users.Keys == db.users.Keys && UsersValid(users)
    ensures Valid(db.(users := users))
  {
    var r := db.(users := users);
    assert KeysBelowNext(r);
    assert ReviewsValid(r);
    assert CommentsLinked(r);
  }

  /**
   * Deleting a user deletes the user's reviews (with every comment on them)
   * and the user's own comments.
   */
  function DeleteUser(db: Db, id: nat): (r: Db)
    ensures r.users.Keys == db.users.Keys - {id} && SubTable(r.users, db.users)
    ensures forall k :: k in r.reviews <==> k in db.reviews && db.reviews[k].author != id
    ensures CommentsLinked(db) ==> forall c :: c in r.comments <==>
      c in db.comments && db.comments[c].author != id && db.comments[c].review in r.reviews
    ensures SubTable(r.reviews, db.reviews) && SubTable(r.comments, db.comments)
    ensures r.titles == db.titles && r.categories == db.categories && r.genres == db.genres
    ensures r.nextId == db.nextId
  {
    RemoveUserRow(RemoveReviews(db, set k | k in db.reviews && db.reviews[k].author == id), id)
  }

  /** Deleting a user leaves a database that satisfies the schema. */
  lemma DeleteUserKeepsValid(db: Db, id: nat)
    requires Valid(db)
    ensures Valid(DeleteUser(db, id))
  {
    var gone := set k | k in db.reviews && db.reviews[k].author == id;
    RemoveReviewsKeepsValid(db, gone);
    RemoveUserRowKeepsValid(RemoveReviews(db, gone), id);
  }

  /** The scores of the reviews of `title` whose keys are below `n`, in key order. */
  function ScoresBelow(reviews: map<nat, Review>, title: nat, n: nat): (s: seq<int>)
    ensures s == [] <==> forall k | k in reviews && k < n :: reviews[k].title != title
    ensures (forall k | k in reviews :: SCORE_MIN <= reviews[k].score <= SCORE_MAX) ==>
      forall i | 0 <= i < |s| :: SCORE_MIN <= s[i] <= SCORE_MAX
  {
    if n == 0 then []
    else
      ScoresBelow(reviews, title, n - 1) +
      (if n - 1 in reviews && reviews[n - 1].title == title then [reviews[n - 1].score] else [])
  }

  function Sum(s: seq<int>): int
  {
    if s == [] then 0 else Sum(s[..|s| - 1]) + s[|s| - 1]
  }

  type Positive = n: nat | 0 < n witness 1

  /** A mean kept exact, as a sum over a positive count. */
  datatype Mean = Mean(sum: int, count: Positive)

  /**
   * `average_score`: the mean score of the title's reviews, absent when the
   * title has no review (never zero, never a division by zero).
   */
  function AverageScore(db: Db, title: nat): (r: Option<Mean>)
    ensures KeysBelowNext(db) ==> (r.None? <==> forall k | k in db.reviews :: db.reviews[k].title != title)
    ensures KeysBelowNext(db) && r.Some? ==>
      r.value.count == |set k | k in db.reviews && db.reviews[k].title == title|
  {
    var scores := ScoresBelow(db.reviews, title, db.nextId);
    ScoresBelowCount(db.reviews, title, db.nextId);
    assert KeysBelowNext(db) ==>
      ReviewsOfBelow(db.reviews, title, db.nextId) == set k | k in db.reviews && db.reviews[k].title == title;
    if scores == [] then None else Some(Mean(Sum(scores), |scores|))
  }

  /** The keys below `n` of the reviews of `title`. */
  ghost function ReviewsOfBelow(reviews: map<nat, Review>, title: nat, n: nat): set<nat>
  {
    set k | k in reviews && k < n && reviews[k].title == title
  }

  /** One score is collected per review of the title, so the count of the mean is the number of its reviews. */
  lemma {:induction false} ScoresBelowCount(reviews: map<nat, Review>, title: nat, n: nat)
    ensures |ScoresBelow(reviews, title, n)| == |ReviewsOfBelow(reviews, title, n)|
  {
    if n == 0 {
      assert ReviewsOfBelow(reviews, title, n) == {};
    } else {
      ScoresBelowCount(reviews, title, n - 1);
      var below := ReviewsOfBelow(reviews, title, n - 1);
      if n - 1 in reviews && reviews[n - 1].title == title {
        assert ReviewsOfBelow(reviews, title, n) == below + {n - 1};
        assert n - 1 !in below;
      } else {
        assert ReviewsOfBelow(reviews, title, n) == below;
      }
    }
  }

  /** The scores below `n` depend only on the rows below `n`. */
  lemma {:induction false} ScoresBelowUnchanged(a: map<nat, Review>, b: map<nat, Review>, title: nat, n: nat)
    requires forall k: nat | k < n :: (k in a <==> k in b) && (k in a ==> a[k] == b[k])
    ensures ScoresBelow(a, title, n) == ScoresBelow(b, title, n)
  {
    if n > 0 {
      ScoresBelowUnchanged(a, b, title, n - 1);
    }
  }

  lemma SumAppend(s: seq<int>, x: int)
    ensures Sum(s + [x]) == Sum(s) + x
  {
    assert (s + [x])[..|s + [x]| - 1] == s;
  }

  /** Inserting a review appends its score to its own title's scores and to no other's. */
  lemma ScoresAfterInsert(db: Db, rv: Review, t: nat)
    requires KeysBelowNext(db) && InsertReview(db, rv).Written?
    ensures ScoresBelow(InsertReview(db, rv).db.reviews, t, InsertReview(db, rv).db.nextId) ==
      ScoresBelow(db.reviews, t, db.nextId) + (if t == rv.title then [rv.score] else [])
  {
    var next := InsertReview(db, rv).db;
    ScoresBelowUnchanged(next.reviews, db.reviews, t, db.nextId);
    assert next.reviews[db.nextId] == rv;
  }

  /** A new review of a title adds its score to the title's sum and one to its count. */
  lemma InsertReviewMean(db: Db, rv: Review)
    requires KeysBelowNext(db) && InsertReview(db, rv).Written?
    ensures AverageScore(InsertReview(db, rv).db, rv.title) ==
      if AverageScore(db, rv.title).None? then Some(Mean(rv.score, 1))
      else Some(Mean(AverageScore(db, rv.title).value.sum + rv.score, AverageScore(db, rv.title).value.count + 1))
  {
    var before := ScoresBelow(db.reviews, rv.title, db.nextId);
    ScoresAfterInsert(db, rv, rv.title);
    SumAppend(before, rv.score);
    assert before == [] ==> before + [rv.score] == [rv.score];
  }

  /** A new review leaves every other title's average as it was. */
  lemma InsertReviewOtherMean(db: Db, rv: Review, t: nat)
    requires KeysBelowNext(db) && InsertReview(db, rv).Written? && t != rv.title
    ensures AverageScore(InsertReview(db, rv).db, t) == AverageScore(db, t)
  {
    ScoresAfterInsert(db, rv, t);
    assert ScoresBelow(db.reviews, t, db.nextId) + [] == ScoresBelow(db.reviews, t, db.nextId);
  }

  lemma {:induction false} SumWithin(s: seq<int>, lo: int, hi: int)
    requires forall i | 0 <= i < |s| :: lo <= s[i] <= hi
    ensures lo * |s| <= Sum(s) <= hi * |s|
  {
    if s != [] {
      SumWithin(s[..|s| - 1], lo, hi);
    }
  }

  /** Every score lies in 1..10, so the mean does too: count <= sum <= 10 * count. */
  lemma AverageScoreInRange(db: Db, title: nat)
    requires Valid(db)
    requires AverageScore(db, title).Some?
    ensures SCORE_MIN * AverageScore(db, title).value.count <= AverageScore(db, title).value.sum
    ensures AverageScore(db, title).value.sum <= SCORE_MAX * AverageScore(db, title).value.count
  {
    SumWithin(ScoresBelow(db.reviews, title, db.nextId), SCORE_MIN, SCORE_MAX);
  }
}
