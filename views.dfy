/**
 * The request handlers over one in-memory database: signup, token
 * exchange, the `me` endpoint, review and comment creation and listing,
 * deletion, and the title list with its rating.
 */
module Views {
  import opened Base
  import opened Models
  import opened Permissions
  import opened Serializers
  import opened Filters

  /** How a request names its sender: no credentials, or a bearer token for a user key. */
  datatype Principal = NoCredentials | Bearer(userId: nat)

  /** Authentication: a token for a key with no stored user is refused. */
  function Authenticate(db: Db, p: Principal): (r: Result<Caller>)
    ensures p.NoCredentials? ==> r == Ok(Anonymous)
    ensures p.Bearer? ==> (r.Ok? <==> p.userId in db.users)
    ensures r.Ok? && r.value.Authenticated? ==>
      p == Bearer(r.value.id) && r.value.id in db.users && r.value.user == db.users[r.value.id]
    ensures r.Err? ==> r.error == NotAuthenticated
  {
    match p
    case NoCredentials => Ok(Anonymous)
    case Bearer(id) => if id in db.users then Ok(Authenticated(id, db.users[id])) else Err(NotAuthenticated)
  }

  /** A bearer token for a key with no stored user: authentication refuses it. */
  predicate UnknownBearer(db: Db, p: Principal)
  {
    p.Bearer? && p.userId !in db.users
  }

  /** A bearer token for a stored user. */
  predicate StoredBearer(db: Db, p: Principal)
  {
    p.Bearer? && p.userId in db.users
  }

  /** A signup outcome: a confirmation code is derived for `user` and mailed to its address. */
  datatype Issued = Issued(user: nat, data: SignupData)

  /** The result of a request together with the database it leaves behind. */
  datatype Step<T> = Step(result: Result<T>, db: Db)

  /** The row get_or_create inserts: the given pair, the default role, everything else empty. */
  function NewUser(d: SignupData): (u: User)
    ensures u.username == d.username && u.email == d.email && u.role == DEFAULT_ROLE
    ensures !u.isSuperuser && !u.isStaff
  {
    User(d.username, d.email, DEFAULT_ROLE, false, false, "", "", "")
  }

  /**
   * `generate_confirmation_code`: validate, then get the user with exactly
   * this username and email or create one. When the username and the email
   * both exist but on different users, validation passes and the insert
   * clashes with the unique columns.
   */
  function Signup(db: Db, d: SignupData, isEmail: string -> bool): (s: Step<Issued>)
    ensures s.result.Err? ==> s.db == db
    ensures ValidateSignup(db, d, isEmail).Err? ==> s.result == Err(ValidateSignup(db, d, isEmail).error)
    ensures s.result.Ok? ==> s.result.value.data == d && s.result.value.user in s.db.users
    ensures s.result.Ok? ==>
      s.db.users[s.result.value.user].username == d.username && s.db.users[s.result.value.user].email == d.email
    ensures (KeysBelowNext(db) && ValidateSignup(db, d, isEmail).Ok? && exists k | k in db.users ::
      db.users[k].username == d.username && db.users[k].email == d.email) ==> s.result.Ok? && s.db == db
    ensures ValidateSignup(db, d, isEmail).Ok? && !UsernameExists(db, d.username) ==>
      s.result == Ok(Issued(db.nextId, d)) &&
      s.db == db.(users := db.users[db.nextId := NewUser(d)], nextId := db.nextId + 1)
    ensures (KeysBelowNext(db) && ValidateSignup(db, d, isEmail).Ok? && UsernameExists(db, d.username) &&
      forall k | k in db.users :: db.users[k].username != d.username || db.users[k].email != d.email) ==>
      s == Step(Err(IntegrityError), db)
    ensures Valid(db) ==> Valid(s.db)
  {
    match ValidateSignup(db, d, isEmail)
    case Err(e) => Step(Err(e), db)
    case Ok(_) =>
      match FindByPair(db, d.username, d.email)
      case Some(k) => Step(Ok(Issued(k, d)), db)
      case None =>
        match InsertUser(db, NewUser(d))
        case Written(k, next) => Step(Ok(Issued(k, d)), next)
        case Refused => Step(Err(IntegrityError), db)
  }

  /** Signing up twice with the same pair changes nothing the second time and names the same user. */
  lemma SignupIdempotent(db: Db, d: SignupData, isEmail: string -> bool)
    requires Valid(db)
    requires Signup(db, d, isEmail).result.Ok?
    ensures Signup(Signup(db, d, isEmail).db, d, isEmail) == Signup(db, d, isEmail)
  {
    var first := Signup(db, d, isEmail);
    var k := first.result.value.user;
    var after := first.db;
    assert UsernameExists(after, d.username) && EmailExists(after, d.email);
    assert ValidateSignup(after, d, isEmail).Ok?;
    var again := FindByPair(after, d.username, d.email);
    assert again.Some?;
    assert again.value == k;
  }

  /**
   * The users' `me` endpoint. GET shows the caller's row and changes
   * nothing; PATCH validates the fields present and saves them with the
   * role forced back to the caller's current role.
   */
  datatype MeAction = ShowMe | UpdateMe

  function OrElse(v: Option<string>, current: string): string
  {
    if v.Some? then v.value else current
  }

  /** The row `serializer.save(role=role)` writes: the fields present replace the stored ones. */
  function SaveUser(u: User, p: UserPatch, role: Role): (r: User)
    ensures r.role == role && r.isSuperuser == u.isSuperuser && r.isStaff == u.isStaff
    ensures r.username == (if p.username.Some? then p.username.value else u.username)
    ensures r.email == (if p.email.Some? then p.email.value else u.email)
    ensures r.firstName == (if p.firstName.Some? then p.firstName.value else u.firstName)
    ensures r.lastName == (if p.lastName.Some? then p.lastName.value else u.lastName)
    ensures r.bio == (if p.bio.Some? then p.bio.value else u.bio)
  {
    User(OrElse(p.username, u.username), OrElse(p.email, u.email), role, u.isSuperuser, u.isStaff,
         OrElse(p.firstName, u.firstName), OrElse(p.lastName, u.lastName), OrElse(p.bio, u.bio))
  }

  /** A patch that passed the user form keeps the user table unique and within bounds. */
  lemma PatchKeepsValid(db: Db, self: nat, p: UserPatch, isEmail: string -> bool)
    requires Valid(db) && self in db.users
    requires ValidateUserPatch(db, self, p, isEmail) == Pass
    ensures Valid(db.(users := db.users[self := SaveUser(db.users[self], p, db.users[self].role)]))
  {
    var u := SaveUser(db.users[self], p, db.users[self].role);
    var users := db.users[self := u];
    assert 0 < |u.username| <= USERNAME_MAX_LENGTH && 0 < |u.email| <= EMAIL_MAX_LENGTH;
    forall k | k in db.users && k != self
      ensures db.users[k].username != u.username && db.users[k].email != u.email
    {
      assert db.users[k].username != db.users[self].username && db.users[k].email != db.users[self].email;
    }
    assert UsersValid(users);
    ReplaceUsersKeepsValid(db, users);
  }

  /** Which serializer the title endpoints use for an action. */
  datatype Action = ListAction | RetrieveAction | CreateAction | UpdateAction | PartialUpdateAction | DestroyAction
  datatype TitleSerializer = WriteTitleSerializer | ReadTitleSerializer

  /** `TitlesViewSet.get_serializer_class`: the write form for create and updates, the read form otherwise. */
  function SerializerFor(a: Action): (s: TitleSerializer)
    ensures s == WriteTitleSerializer <==> a == CreateAction || a == UpdateAction || a == PartialUpdateAction
  {
    if a in {CreateAction, UpdateAction, PartialUpdateAction} then WriteTitleSerializer else ReadTitleSerializer
  }

  /** The members of `keys` below `n`, in increasing order. */
  function Ascending(keys: set<nat>, n: nat): (r: seq<nat>)
    ensures forall i | 0 <= i < |r| :: r[i] in keys && r[i] < n
    ensures forall k | k in keys && k < n :: k in r
    ensures forall i, j | 0 <= i < j < |r| :: r[i] < r[j]
  {
    if n == 0 then [] else Ascending(keys, n - 1) + (if n - 1 in keys then [n - 1] else [])
  }

  /** What the filter sees of stored title `t`. */
  function Record(db: Db, t: nat): (r: TitleRecord)
    requires t in db.titles
    ensures r.id == t && r.name == db.titles[t].name && r.year == db.titles[t].year
  {
    var title := db.titles[t];
    var links := Ascending(title.genres, db.nextId);
    TitleRecord(
      t,
      if title.category in db.categories then db.categories[title.category].slug else "",
      seq(|links|, i requires 0 <= i < |links| =>
        if links[i] in db.genres then db.genres[links[i]].slug else ""),
      title.name,
      title.year)
  }

  /** Every stored title in key order. */
  function Records(db: Db): (r: seq<TitleRecord>)
    ensures forall i | 0 <= i < |r| :: r[i].id in db.titles && r[i] == Record(db, r[i].id)
    ensures KeysBelowNext(db) ==> forall t | t in db.titles :: Record(db, t) in r
    ensures IdsAscending(r)
  {
    var keys := Ascending(db.titles.Keys, db.nextId);
    var r := seq(|keys|, i requires 0 <= i < |keys| => Record(db, keys[i]));
    assert forall t | t in keys :: Record(db, t) in r by {
      forall t | t in keys
        ensures Record(db, t) in r
      {
        var i :| 0 <= i < |keys| && keys[i] == t;
        assert r[i] == Record(db, t);
      }
    }
    r
  }

  /** Since genre slugs are unique, no title carries one genre slug twice. */
  lemma RecordGenresDistinct(db: Db, t: nat)
    requires Valid(db) && t in db.titles
    ensures NoDuplicates(Record(db, t).genres)
  {
    var links := Ascending(db.titles[t].genres, db.nextId);
    var slugs := Record(db, t).genres;
    forall i, j | 0 <= i < j < |slugs|
      ensures slugs[i] != slugs[j]
    {
      assert links[i] < links[j];
      assert links[i] in db.genres && links[j] in db.genres;
    }
  }

  /** One entry of the title list: the record and the rating the read form shows. */
  datatype TitleView = TitleView(record: TitleRecord, rating: Option<int>)

  /** The filtered title list with each title's rating. */
  function Listing(db: Db, q: Query): (r: seq<TitleView>)
    ensures |r| == |Apply(Records(db), q)|
    ensures forall i | 0 <= i < |r| ::
      r[i].record == Apply(Records(db), q)[i] && r[i].rating == RatingField(AverageScore(db, r[i].record.id))
  {
    var rows := Apply(Records(db), q);
    seq(|rows|, i requires 0 <= i < |rows| => TitleView(rows[i], RatingField(AverageScore(db, rows[i].id))))
  }

  /** No record repeats a genre, so filtering the records keeps each match once. */
  lemma RecordsApplyIsKeep(db: Db, q: Query)
    requires Valid(db)
    ensures Apply(Records(db), q) == Keep(Records(db), q)
  {
    var records := Records(db);
    forall i | 0 <= i < |records|
      ensures NoDuplicates(records[i].genres)
    {
      RecordGenresDistinct(db, records[i].id);
    }
    ApplyIsKeep(records, q);
  }

  /**
   * On a consistent database the list holds each title meeting the query
   * exactly once, in key order, and every rating shown lies in 1..10.
   */
  lemma ListingProperties(db: Db, q: Query)
    requires Valid(db)
    ensures Apply(Records(db), q) == Keep(Records(db), q)
    ensures forall v | v in Listing(db, q) :: v.record.id in db.titles && Matches(v.record, q)
    ensures forall v | v in Listing(db, q) :: v.rating.Some? ==> SCORE_MIN <= v.rating.value <= SCORE_MAX
    ensures forall t | t in db.titles && Matches(Record(db, t), q) ::
      exists i | 0 <= i < |Listing(db, q)| :: Listing(db, q)[i].record == Record(db, t)
    ensures forall i, j | 0 <= i < j < |Listing(db, q)| :: Listing(db, q)[i].record.id < Listing(db, q)[j].record.id
  {
    var records := Records(db);
    RecordsApplyIsKeep(db, q);
    KeepKeepsOrder(records, q);
    var list := Listing(db, q);
    forall t | t in db.titles && Matches(Record(db, t), q)
      ensures exists i | 0 <= i < |list| :: list[i].record == Record(db, t)
    {
      assert Record(db, t) in Apply(records, q);
      var i :| 0 <= i < |Apply(records, q)| && Apply(records, q)[i] == Record(db, t);
      assert list[i].record == Record(db, t);
    }
    forall v | v in list
      ensures v.record.id in db.titles && Matches(v.record, q)
      ensures v.rating.Some? ==> SCORE_MIN <= v.rating.value <= SCORE_MAX
    {
      var i :| 0 <= i < |list| && list[i] == v;
      assert v.record in Apply(records, q);
      RatingFieldInRange(db, v.record.id);
    }
  }

  /** The site's database and the handlers that read and write it. */
  class Store {
    var users: map<nat, User>
    var categories: map<nat, Category>
    var genres: map<nat, Genre>
    var titles: map<nat, Title>
    var reviews: map<nat, Review>
    var comments: map<nat, Comment>
    var nextId: nat

    function Snapshot(): Db
      reads this
    {
      Db(users, categories, genres, titles, reviews, comments, nextId)
    }

    ghost predicate Valid()
      reads this
    {
      Models.Valid(Snapshot())
    }

    constructor (initial: Db)
      requires Models.Valid(initial)
      ensures Snapshot() == initial && Valid()
    {
      users, categories, genres := initial.users, initial.categories, initial.genres;
      titles, reviews, comments := initial.titles, initial.reviews, initial.comments;
      nextId := initial.nextId;
    }

    /** Replaces the tables with `d`: the effect of one committed transaction. */
    method Commit(d: Db)
      modifies this
      ensures Snapshot() == d
    {
      users, categories, genres := d.users, d.categories, d.genres;
      titles, reviews, comments := d.titles, d.reviews, d.comments;
      nextId := d.nextId;
    }

    /** POST auth/signup. Open to anyone. */
    method SignupRequest(d: SignupData, isEmail: string -> bool) returns (r: Result<Issued>)
      requires Valid()
      modifies this
      ensures Valid()
      ensures Step(r, Snapshot()) == Signup(old(Snapshot()), d, isEmail)
    {
      var v := ValidateSignup(Snapshot(), d, isEmail);
      if v.Err? {
        r := Err(v.error);
        return;
      }
      var found := FindByPair(Snapshot(), d.username, d.email);
      if found.Some? {
        r := Ok(Issued(found.value, d));
        return;
      }
      var w := InsertUser(Snapshot(), NewUser(d));
      if w.Refused? {
        r := Err(IntegrityError);
        return;
      }
      Commit(w.db);
      r := Ok(Issued(w.key, d));
    }

    /**
     * POST auth/token. Open to anyone; on success the access token is
     * minted for the user key returned.
     */
    method TokenRequest(d: TokenData, checkToken: (User, string) -> bool) returns (r: Result<nat>)
      requires Valid()
      ensures r.Ok? <==> ValidateToken(Snapshot(), d, checkToken).Ok?
      ensures r.Err? ==> r.error == ValidateToken(Snapshot(), d, checkToken).error
      ensures r.Ok? ==> r.value in users && users[r.value].username == d.username
      ensures r.Ok? ==> checkToken(users[r.value], d.confirmationCode)
    {
      var v := ValidateToken(Snapshot(), d, checkToken);
      if v.Err? {
        r := Err(v.error);
        return;
      }
      r := Ok(FindByUsername(Snapshot(), d.username).value);
    }

    /** GET or PATCH users/me, for authenticated callers only. */
    method Me(p: Principal, action: MeAction, patch: UserPatch, isEmail: string -> bool) returns (r: Result<User>)
      requires Valid()
      modifies this
      ensures Valid()
      ensures r.Err? || action == ShowMe ==> Snapshot() == old(Snapshot())
      ensures p.NoCredentials? ==> r == Err(NotAuthenticated)
      ensures r.Ok? ==> p.Bearer? && p.userId in old(users)
      ensures r.Ok? ==> users == old(users)[p.userId := r.value]
      ensures r.Ok? ==> Snapshot() == old(Snapshot()).(users := users)
      ensures r.Ok? ==> r.value.role == old(users)[p.userId].role
      ensures action == ShowMe && r.Ok? ==> r.value == old(users)[p.userId]
      ensures r.Ok? <==> (p.Bearer? && p.userId in old(users) &&
                          (action == ShowMe || ValidateUserPatch(old(Snapshot()), p.userId, patch, isEmail) == Pass))
      ensures action == UpdateMe && p.Bearer? && p.userId in old(users) ==>
        (r.Ok? <==> ValidateUserPatch(old(Snapshot()), p.userId, patch, isEmail) == Pass)
      ensures action == UpdateMe && r.Ok? ==>
        r.value == SaveUser(old(users)[p.userId], patch, old(users)[p.userId].role)
      ensures UnknownBearer(old(Snapshot()), p) ==> r == Err(NotAuthenticated)
      ensures (action == UpdateMe && StoredBearer(old(Snapshot()), p) &&
               ValidateUserPatch(old(Snapshot()), p.userId, patch, isEmail) != Pass) ==>
        r.Err? && r.error.ValidationError?
    {
      var auth := Authenticate(Snapshot(), p);
      if auth.Err? {
        r := Err(auth.error);
        return;
      }
      var caller := auth.value;
      if !AuthenticatedAllows(caller) {
        r := Err(Denied(caller));
        return;
      }
      if action == ShowMe {
        r := Ok(caller.user);
        return;
      }
      var v := ValidateUserPatch(Snapshot(), caller.id, patch, isEmail);
      if v.Fail? {
        r := Err(v.error);
        return;
      }
      var saved := SaveUser(caller.user, patch, caller.user.role);
      PatchKeepsValid(Snapshot(), caller.id, patch, isEmail);
      users := users[caller.id := saved];
      r := Ok(saved);
    }

    /** POST titles/{title}/reviews: the author is the caller and the title comes from the URL. */
    method CreateReview(p: Principal, title: nat, text: string, score: int) returns (r: Result<nat>)
      requires Valid()
      modifies this
      ensures Valid()
      ensures r.Err? ==> Snapshot() == old(Snapshot())
      ensures p.NoCredentials? ==> r == Err(NotAuthenticated)
      ensures r.Ok? <==>
        p.Bearer? && p.userId in old(users) && ReviewFields(text, score) == Pass &&
        title in old(titles) && !HasReview(old(Snapshot()), p.userId, title)
      ensures r.Ok? ==> r.value == old(nextId)
      ensures r.Ok? ==>
        Snapshot() == old(Snapshot()).(reviews := old(reviews)[r.value := Review(title, p.userId, text, score)],
                                       nextId := old(nextId) + 1)
      ensures p.Bearer? && p.userId in old(users) && ReviewFields(text, score) == Pass && title !in old(titles) ==>
        r == Err(NotFound)
      ensures (p.Bearer? && p.userId in old(users) && ReviewFields(text, score) == Pass &&
               HasReview(old(Snapshot()), p.userId, title)) ==> r.Err? && r.error.ValidationError?
      ensures UnknownBearer(old(Snapshot()), p) ==> r == Err(NotAuthenticated)
      ensures StoredBearer(old(Snapshot()), p) && ReviewFields(text, score) != Pass ==> r.Err? && r.error.ValidationError?
    {
      var auth := Authenticate(Snapshot(), p);
      if auth.Err? {
        r := Err(auth.error);
        return;
      }
      var caller := auth.value;
      if !ReviewEndpointAllows(POST, caller, None) {
        r := Err(Denied(caller));
        return;
      }
      var fields := ReviewFields(text, score);
      if fields.Fail? {
        r := Err(fields.error);
        return;
      }
      var check := ValidateReview(Snapshot(), POST, caller.id, title);
      if check.Fail? {
        r := Err(check.error);
        return;
      }
      // perform_create looks the title up again and saves; the check above
      // already found the title and no review of it by the caller.
      var w := InsertReview(Snapshot(), Review(title, caller.id, text, score));
      Commit(w.db);
      r := Ok(w.key);
    }

    /**
     * POST titles/{title}/reviews/{review}/comments: the parent is found by
     * the review key alone; the title in the URL is never consulted.
     */
    method CreateComment(p: Principal, titleInUrl: nat, review: nat, text: string) returns (r: Result<nat>)
      requires Valid()
      modifies this
      ensures Valid()
      ensures r.Err? ==> Snapshot() == old(Snapshot())
      ensures p.NoCredentials? ==> r == Err(NotAuthenticated)
      ensures r.Ok? <==> p.Bearer? && p.userId in old(users) && text != [] && review in old(reviews)
      ensures r.Ok? ==> r.value == old(nextId)
      ensures r.Ok? ==>
        Snapshot() == old(Snapshot()).(comments := old(comments)[r.value := Comment(review, p.userId, text)],
                                       nextId := old(nextId) + 1)
      ensures p.Bearer? && p.userId in old(users) && text != [] && review !in old(reviews) ==> r == Err(NotFound)
      ensures UnknownBearer(old(Snapshot()), p) ==> r == Err(NotAuthenticated)
      ensures StoredBearer(old(Snapshot()), p) && text == [] ==> r == Err(ValidationError(Blank("text")))
    {
      var auth := Authenticate(Snapshot(), p);
      if auth.Err? {
        r := Err(auth.error);
        return;
      }
      var caller := auth.value;
      if !ReviewEndpointAllows(POST, caller, None) {
        r := Err(Denied(caller));
        return;
      }
      var fields := CommentFields(text);
      if fields.Fail? {
        r := Err(fields.error);
        return;
      }
      if review !in reviews {
        r := Err(NotFound);
        return;
      }
      var w := InsertComment(Snapshot(), Comment(review, caller.id, text));
      Commit(w.db);
      r := Ok(w.key);
    }

    /** GET titles/{title}/reviews: the keys of the title's reviews. */
    method ListReviews(p: Principal, title: nat) returns (r: Result<set<nat>>)
      requires Valid()
      ensures p.Bearer? && p.userId !in users ==> r == Err(NotAuthenticated)
      ensures (p.NoCredentials? || p.userId in users) && title !in titles ==> r == Err(NotFound)
      ensures r.Ok? <==> (p.NoCredentials? || p.userId in users) && title in titles
      ensures r.Ok? ==> forall k :: k in r.value <==> k in reviews && reviews[k].title == title
    {
      var auth := Authenticate(Snapshot(), p);
      if auth.Err? {
        r := Err(auth.error);
        return;
      }
      if title !in titles {
        r := Err(NotFound);
        return;
      }
      r := Ok(set k | k in reviews && reviews[k].title == title);
    }

    /** GET titles/{title}/reviews/{review}/comments: found by the review key alone. */
    method ListComments(p: Principal, titleInUrl: nat, review: nat) returns (r: Result<set<nat>>)
      requires Valid()
      ensures p.Bearer? && p.userId !in users ==> r == Err(NotAuthenticated)
      ensures (p.NoCredentials? || p.userId in users) ==> (r.Ok? <==> review in reviews)
      ensures (p.NoCredentials? || p.userId in users) && review !in reviews ==> r == Err(NotFound)
      ensures r.Ok? ==> forall c :: c in r.value <==> c in comments && comments[c].review == review
    {
      var auth := Authenticate(Snapshot(), p);
      if auth.Err? {
        r := Err(auth.error);
        return;
      }
      if review !in reviews {
        r := Err(NotFound);
        return;
      }
      r := Ok(set c | c in comments && comments[c].review == review);
    }

    /** GET titles: the filtered list with ratings, open to anyone. */
    method ListTitles(p: Principal, q: Query) returns (r: Result<seq<TitleView>>)
      requires Valid()
      ensures p.Bearer? && p.userId !in users ==> r == Err(NotAuthenticated)
      ensures (p.NoCredentials? || p.userId in users) ==> r.Ok?
      ensures r.Ok? ==> r.value == Listing(Snapshot(), q)
      ensures r.Ok? ==> forall v | v in r.value ::
        v.record.id in titles && Matches(v.record, q) && (v.rating.Some? ==> SCORE_MIN <= v.rating.value <= SCORE_MAX)
      ensures r.Ok? ==> forall t | t in titles && Matches(Record(Snapshot(), t), q) ::
        exists i | 0 <= i < |r.value| :: r.value[i].record == Record(Snapshot(), t)
    {
      var auth := Authenticate(Snapshot(), p);
      if auth.Err? {
        r := Err(auth.error);
        return;
      }
      assert AdminOrReadOnlyAllows(GET, auth.value);
      ListingProperties(Snapshot(), q);
      r := Ok(Listing(Snapshot(), q));
    }

    /** GET users: the user keys, for authenticated admins only. */
    method ListUsers(p: Principal) returns (r: Result<set<nat>>)
      requires Valid()
      ensures r.Ok? <==> p.Bearer? && p.userId in users && IsAdmin(users[p.userId])
      ensures r.Ok? ==> r.value == users.Keys
      ensures p.NoCredentials? ==> r == Err(NotAuthenticated)
      ensures UnknownBearer(Snapshot(), p) ==> r == Err(NotAuthenticated)
      ensures StoredBearer(Snapshot(), p) && !IsAdmin(users[p.userId]) ==> r == Err(PermissionDenied)
    {
      var auth := Authenticate(Snapshot(), p);
      if auth.Err? {
        r := Err(auth.error);
        return;
      }
      if !AdminForUsersAllows(GET, auth.value) {
        r := Err(Denied(auth.value));
        return;
      }
      r := Ok(users.Keys);
    }

    /**
     * DELETE titles/{title}/reviews/{review}: the review must belong to the
     * title; the author, admins and moderators may delete it, and its
     * comments go with it.
     */
    method DestroyReview(p: Principal, title: nat, review: nat) returns (r: Result<nat>)
      requires Valid()
      modifies this
      ensures Valid()
      ensures r.Err? ==> Snapshot() == old(Snapshot())
      ensures r.Ok? ==> Snapshot() == DeleteReview(old(Snapshot()), review)
      ensures r.Ok? <==>
        p.Bearer? && p.userId in old(users) && title in old(titles) &&
        review in old(reviews) && old(reviews)[review].title == title &&
        ObjectAllows(DELETE, Authenticated(p.userId, old(users)[p.userId]), old(reviews)[review].author)
      ensures (p.Bearer? && p.userId in old(users) && title in old(titles) &&
               review in old(reviews) && old(reviews)[review].title == title &&
               old(reviews)[review].author != p.userId && old(users)[p.userId].role == UserRole &&
               !old(users)[p.userId].isSuperuser && !old(users)[p.userId].isStaff) ==> r == Err(PermissionDenied)
      ensures p.NoCredentials? || UnknownBearer(old(Snapshot()), p) ==> r == Err(NotAuthenticated)
      ensures (StoredBearer(old(Snapshot()), p) &&
               (title !in old(titles) || review !in old(reviews) || old(reviews)[review].title != title)) ==>
        r == Err(NotFound)
    {
      var auth := Authenticate(Snapshot(), p);
      if auth.Err? {
        r := Err(auth.error);
        return;
      }
      var caller := auth.value;
      if !AuthenticatedOrReadOnlyAllows(DELETE, caller) {
        r := Err(Denied(caller));
        return;
      }
      if title !in titles || review !in reviews || reviews[review].title != title {
        r := Err(NotFound);
        return;
      }
      if !ObjectAllows(DELETE, caller, reviews[review].author) {
        r := Err(Denied(caller));
        return;
      }
      Commit(DeleteReview(Snapshot(), review));
      r := Ok(review);
    }

    /** DELETE .../reviews/{review}/comments/{comment}: the comment must belong to the review. */
    method DestroyComment(p: Principal, titleInUrl: nat, review: nat, comment: nat) returns (r: Result<nat>)
      requires Valid()
      modifies this
      ensures Valid()
      ensures r.Err? ==> Snapshot() == old(Snapshot())
      ensures r.Ok? ==> Snapshot() == DeleteComment(old(Snapshot()), comment)
      ensures r.Ok? <==>
        p.Bearer? && p.userId in old(users) && review in old(reviews) &&
        comment in old(comments) && old(comments)[comment].review == review &&
        ObjectAllows(DELETE, Authenticated(p.userId, old(users)[p.userId]), old(comments)[comment].author)
      ensures p.NoCredentials? || UnknownBearer(old(Snapshot()), p) ==> r == Err(NotAuthenticated)
      ensures (StoredBearer(old(Snapshot()), p) &&
               (review !in old(reviews) || comment !in old(comments) || old(comments)[comment].review != review)) ==>
        r == Err(NotFound)
      ensures (StoredBearer(old(Snapshot()), p) && review in old(reviews) &&
               comment in old(comments) && old(comments)[comment].review == review &&
               old(comments)[comment].author != p.userId && old(users)[p.userId].role == UserRole &&
               !old(users)[p.userId].isSuperuser && !old(users)[p.userId].isStaff) ==> r == Err(PermissionDenied)
    {
      var auth := Authenticate(Snapshot(), p);
      if auth.Err? {
        r := Err(auth.error);
        return;
      }
      var caller := auth.value;
      if !AuthenticatedOrReadOnlyAllows(DELETE, caller) {
        r := Err(Denied(caller));
        return;
      }
      if review !in reviews || comment !in comments || comments[comment].review != review {
        r := Err(NotFound);
        return;
      }
      if !ObjectAllows(DELETE, caller, comments[comment].author) {
        r := Err(Denied(caller));
        return;
      }
      Commit(DeleteComment(Snapshot(), comment));
      r := Ok(comment);
    }

    /** DELETE titles/{title}, for admins: the title's reviews and their comments go with it. */
    method DestroyTitle(p: Principal, title: nat) returns (r: Result<nat>)
      requires Valid()
      modifies this
      ensures Valid()
      ensures r.Err? ==> Snapshot() == old(Snapshot())
      ensures r.Ok? ==> Snapshot() == DeleteTitle(old(Snapshot()), title)
      ensures r.Ok? <==> p.Bearer? && p.userId in old(users) && IsAdmin(old(users)[p.userId]) && title in old(titles)
      ensures p.NoCredentials? || UnknownBearer(old(Snapshot()), p) ==> r == Err(NotAuthenticated)
      ensures StoredBearer(old(Snapshot()), p) && !IsAdmin(old(users)[p.userId]) ==> r == Err(PermissionDenied)
      ensures StoredBearer(old(Snapshot()), p) && IsAdmin(old(users)[p.userId]) && title !in old(titles) ==> r == Err(NotFound)
    {
      var auth := Authenticate(Snapshot(), p);
      if auth.Err? {
        r := Err(auth.error);
        return;
      }
      var caller := auth.value;
      if !AdminOrReadOnlyAllows(DELETE, caller) {
        r := Err(Denied(caller));
        return;
      }
      if title !in titles {
        r := Err(NotFound);
        return;
      }
      Commit(DeleteTitle(Snapshot(), title));
      r := Ok(title);
    }

    /** DELETE categories/{slug}, for admins: the category's titles, reviews and comments go with it. */
    method DestroyCategory(p: Principal, slug: string) returns (r: Result<nat>)
      requires Valid()
      modifies this
      ensures Valid()
      ensures r.Err? ==> Snapshot() == old(Snapshot())
      ensures r.Ok? ==> r.value in old(categories) && old(categories)[r.value].slug == slug
      ensures r.Ok? ==> Snapshot() == DeleteCategory(old(Snapshot()), r.value)
      ensures r.Ok? <==> (p.Bearer? && p.userId in old(users) && IsAdmin(old(users)[p.userId]) &&
                          exists k | k in old(categories) :: old(categories)[k].slug == slug)
      ensures p.NoCredentials? || UnknownBearer(old(Snapshot()), p) ==> r == Err(NotAuthenticated)
      ensures StoredBearer(old(Snapshot()), p) && !IsAdmin(old(users)[p.userId]) ==> r == Err(PermissionDenied)
      ensures (StoredBearer(old(Snapshot()), p) && IsAdmin(old(users)[p.userId]) &&
               forall k | k in old(categories) :: old(categories)[k].slug != slug) ==> r == Err(NotFound)
    {
      var auth := Authenticate(Snapshot(), p);
      if auth.Err? {
        r := Err(auth.error);
        return;
      }
      var caller := auth.value;
      if !AdminOrReadOnlyAllows(DELETE, caller) {
        r := Err(Denied(caller));
        return;
      }
      if !exists k | k in categories :: categories[k].slug == slug {
        r := Err(NotFound);
        return;
      }
      var k :| k in categories && categories[k].slug == slug;
      Commit(DeleteCategory(Snapshot(), k));
      r := Ok(k);
    }

    /** DELETE genres/{slug}, for admins: only the genre's links to titles go with it. */
    method DestroyGenre(p: Principal, slug: string) returns (r: Result<nat>)
      requires Valid()
      modifies this
      ensures Valid()
      ensures r.Err? ==> Snapshot() == old(Snapshot())
      ensures r.Ok? ==> r.value in old(genres) && old(genres)[r.value].slug == slug
      ensures r.Ok? ==> Snapshot() == DeleteGenre(old(Snapshot()), r.value)
      ensures r.Ok? <==> (p.Bearer? && p.userId in old(users) && IsAdmin(old(users)[p.userId]) &&
                          exists k | k in old(genres) :: old(genres)[k].slug == slug)
      ensures p.NoCredentials? || UnknownBearer(old(Snapshot()), p) ==> r == Err(NotAuthenticated)
      ensures StoredBearer(old(Snapshot()), p) && !IsAdmin(old(users)[p.userId]) ==> r == Err(PermissionDenied)
      ensures (StoredBearer(old(Snapshot()), p) && IsAdmin(old(users)[p.userId]) &&
               forall k | k in old(genres) :: old(genres)[k].slug != slug) ==> r == Err(NotFound)
    {
      var auth := Authenticate(Snapshot(), p);
      if auth.Err? {
        r := Err(auth.error);
        return;
      }
      var caller := auth.value;
      if !AdminOrReadOnlyAllows(DELETE, caller) {
        r := Err(Denied(caller));
        return;
      }
      if !exists k | k in genres :: genres[k].slug == slug {
        r := Err(NotFound);
        return;
      }
      var k :| k in genres && genres[k].slug == slug;
      Commit(DeleteGenre(Snapshot(), k));
      r := Ok(k);
    }

    /** DELETE users/{username}, for admins: the user's reviews and comments go with it. */
    method DestroyUser(p: Principal, username: string) returns (r: Result<nat>)
      requires Valid()
      modifies this
      ensures Valid()
      ensures r.Err? ==> Snapshot() == old(Snapshot())
      ensures r.Ok? ==> r.value in old(users) && old(users)[r.value].username == username
      ensures r.Ok? ==> Snapshot() == DeleteUser(old(Snapshot()), r.value)
      ensures r.Ok? <==> (p.Bearer? && p.userId in old(users) && IsAdmin(old(users)[p.userId]) &&
                          UsernameExists(old(Snapshot()), username))
      ensures p.NoCredentials? || UnknownBearer(old(Snapshot()), p) ==> r == Err(NotAuthenticated)
      ensures StoredBearer(old(Snapshot()), p) && !IsAdmin(old(users)[p.userId]) ==> r == Err(PermissionDenied)
      ensures StoredBearer(old(Snapshot()), p) && IsAdmin(old(users)[p.userId]) && !UsernameExists(old(Snapshot()), username) ==>
        r == Err(NotFound)
    {
      var auth := Authenticate(Snapshot(), p);
      if auth.Err? {
        r := Err(auth.error);
        return;
      }
      var caller := auth.value;
      if !AdminForUsersAllows(DELETE, caller) {
        r := Err(Denied(caller));
        return;
      }
      var found := FindByUsername(Snapshot(), username);
      if found.None? {
        r := Err(NotFound);
        return;
      }
      DeleteUserKeepsValid(Snapshot(), found.value);
      Commit(DeleteUser(Snapshot(), found.value));
      r := Ok(found.value);
    }
  }
}
