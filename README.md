# YaMDb review service, modelled in Dafny

YaMDb is a REST backend where users review titles (films, books, songs),
rate them from 1 to 10 and comment on reviews. Titles belong to one
category and any number of genres. Users register through a two-step
e-mail flow: signup mails a confirmation code, and the code is exchanged
for an access token. Roles decide who may do what: `user`, `moderator`
and `admin`, with the superuser and staff flags counting as admin.

This project models the core of that service:

- `base.dfy` (`Base`): `Option`, `Result`, `Outcome` and the errors a
  request can end in. These are validation errors (400), not
  authenticated (401), permission denied (403), not found (404) and a
  failed database constraint (500).
- `models.dfy` (`Models`): the tables as maps from primary key to row,
  and the schema's rules. These are the role properties, the unique
  columns, the foreign keys with their cascades, the
  (author, title) unique constraint on reviews and the average score.
  The username pattern belongs to the model field, but the signup form
  and its `get_or_create` never apply it. So the schema predicate does
  not require it; only the user update form checks it.
  `Valid` gathers everything the schema guarantees. Every insert and
  delete is proved to keep it.
- `validators.dfy` (`Validators`): the model-level year validator.
- `permissions.dfy` (`Permissions`): the three permission classes and
  the framework classes the views combine them with.
- `serializers.dfy` (`Serializers`): the request forms. They cover
  signup, token, title year, review, comment, user update and the
  integer rating of the read form.
- `filters.dfy` (`Filters`): the title filter, including the join
  through the genre links.
- `views.dfy` (`Views`): the request handlers. Signup and token exchange
  are specification functions. The `Store` class holds the tables as
  fields, and its methods play the endpoints, each proved against the
  model functions.

Some of the source's behaviour is modelled exactly as written, even
where it reads like a slip:

- `is_moderator` compares the role with the value of
  `"moderator" or is_superuser or is_staff`. That value is always the
  string `"moderator"`, so only the role decides.
- `my_year_validator` raises only when `now < value < 1900`. That can
  hold only before 1899, so the validator never refuses a year.
  `validate_year` on the title form still refuses future years.
- Signup checks whether the username exists and whether the e-mail
  exists separately. If both exist, but on different users, validation
  passes and the insert then breaks a unique column.
- The rating is an integer field, so the mean is truncated.
- The comment endpoints find the review by its key alone. The title in
  their URL is never consulted.

## Model

| member | source | states |
|---|---|---|
| Models.ParseRole | api_yamdb/reviews/models.py:33-41 | a role column value is a role exactly when it is one of the three choices, and that role stores back as the same string |
| Models.ParseRoleValue | api_yamdb/reviews/models.py:33-41 | storing a role and reading it back gives the same role |
| Models.PyOr | api_yamdb/reviews/models.py:56-60 | Python `or` returns the first operand when it is truthy and the second otherwise, and is truthy iff either operand is |
| Models.IsAdmin | api_yamdb/reviews/models.py:50-52 | admin iff the role is admin or the superuser or staff flag is set |
| Models.IsModerator | api_yamdb/reviews/models.py:54-60 | as written, moderator iff the role is moderator; the flags play no part |
| Models.IsUser | api_yamdb/reviews/models.py:62-64 | plain user iff the role is user |
| Models.UsernamePatternExamples | api_yamdb/reviews/models.py:22-27 | letters, digits and `_.@+-` match the username pattern; a space, a slash and the empty string do not |
| Models.FindByUsername | api_yamdb/api/views.py:169 | a found key holds that username; on a consistent table nothing is found exactly when no user has the username |
| Models.FindByPair | api_yamdb/api/views.py:147-150 | a found key holds both the username and the e-mail; nothing found means no user holds both |
| Models.InsertUser | api_yamdb/reviews/models.py:19-29 | the insert succeeds iff neither the username nor the e-mail is taken; the new row gets the next key; the schema is kept |
| Models.InsertReview | api_yamdb/reviews/models.py:117-141 | the insert succeeds iff the title and the author exist, the score is non-negative and the author has no review of that title; the schema is kept for scores in 1..10 |
| Models.InsertComment | api_yamdb/reviews/models.py:149-155 | the insert succeeds iff the review and the author exist; the schema is kept |
| Models.SecondReviewRefused | api_yamdb/reviews/models.py:138-141 | a second review of one title by one author is refused |
| Models.SchemaConstraints | api_yamdb/reviews/models.py:13-155 | a consistent database has at most one user per username and per e-mail, one category per slug and one genre per slug, one review per author and title, scores in 1..10, and no dangling reference (a title's category and genres, a review's title and author, a comment's review and author are all stored); the empty database is consistent |
| Models.RemoveReviews | api_yamdb/reviews/models.py:151-152 | deleting reviews deletes exactly the comments on them and leaves every other table alone |
| Models.RemoveTitles | api_yamdb/reviews/models.py:119-123 | deleting titles deletes exactly their reviews and those reviews' comments |
| Models.DeleteComment | api_yamdb/reviews/models.py:149-155 | only the comment goes: every other comment and every other table, and the key counter, stay as they were; the schema is kept |
| Models.DeleteReview | api_yamdb/reviews/models.py:151-152 | the review and exactly its comments go; the surviving rows are unchanged and the other tables and the key counter stay; the schema is kept |
| Models.DeleteTitle | api_yamdb/reviews/models.py:119-123 | the title, exactly its reviews and their comments go; the surviving rows are unchanged and the other tables and the key counter stay; the schema is kept |
| Models.DeleteCategory | api_yamdb/reviews/models.py:95-96 | the category, exactly its titles, their reviews and those reviews' comments go; the surviving rows are unchanged and users, genres and the key counter stay; the schema is kept |
| Models.DeleteGenre | api_yamdb/reviews/models.py:97-98 | only the genre and its links go: every title stays with that genre removed, and categories, reviews, comments, users and the key counter stay; the schema is kept |
| Models.RemoveReviewsKeepsValid | api_yamdb/reviews/models.py:151-152 | removing reviews together with their comments keeps the schema |
| Models.RemoveUserRow | api_yamdb/reviews/models.py:154-155 | deleting a user row deletes exactly that user's comments; the surviving comments are unchanged and the other tables and the key counter stay |
| Models.RemoveUserRowKeepsValid | api_yamdb/reviews/models.py:154-155 | once the user has no reviews, deleting the row keeps the schema |
| Models.SubTableKeepsUsersValid | api_yamdb/reviews/models.py:19-29 | dropping users keeps the rest unique and within bounds |
| Models.ReplaceUsersKeepsValid | api_yamdb/reviews/models.py:19-29 | rewriting user rows under the same keys keeps the schema when the new rows are unique and within bounds |
| Models.DeleteUser | api_yamdb/reviews/models.py:135-136 | deleting a user deletes exactly that user's reviews, the comments on them and the user's own comments; the surviving rows are unchanged and the key counter stays |
| Models.DeleteUserKeepsValid | api_yamdb/reviews/models.py:135-136 | deleting a user keeps the schema |
| Models.ScoresBelow | api_yamdb/reviews/models.py:110-114 | the scores collected are empty iff the title has no review among the keys scanned, and each lies in 1..10 when every score does |
| Models.AverageScore | api_yamdb/api/views.py:41 | the rating annotation (the average of the scores of the reviews joined to the title, reviews/models.py:110-114) is absent exactly when the title has no review, and its count is the number of the title's reviews |
| Models.ScoresBelowCount | api_yamdb/reviews/models.py:110-114 | one score is collected per review of the title |
| Models.InsertReviewMean | api_yamdb/reviews/models.py:110-114 | a new review adds its score to its title's sum and one to its count (a first review gives the mean of that one score) |
| Models.InsertReviewOtherMean | api_yamdb/reviews/models.py:110-114 | a new review leaves every other title's average unchanged |
| Models.SumWithin | api_yamdb/reviews/models.py:125-130 | a sum of values bounded by lo..hi lies between lo and hi times the count |
| Models.AverageScoreInRange | api_yamdb/reviews/models.py:125-130 | on a consistent database the mean of a title's scores lies in 1..10 |
| Validators.MyYearValidator | api_yamdb/reviews/validators.py:5-7 | refuses exactly when `now < value < 1900`, which needs a current year before 1899 |
| Validators.AcceptsEveryYear | api_yamdb/reviews/validators.py:6 | from 1900 on no year is refused, next year's included |
| Permissions.AdminForUsersAllows | api_yamdb/api/permissions.py:8-12 | allowed iff the caller is an authenticated admin, whatever the method |
| Permissions.AdminOrReadOnlyAllows | api_yamdb/api/permissions.py:17-22 | safe methods are always allowed; others iff the caller is an authenticated admin |
| Permissions.ObjectAllows | api_yamdb/api/permissions.py:29-40 | safe methods are always allowed; others iff the caller is the author, an admin or a moderator; a plain user is refused on another's object |
| Permissions.ReviewEndpointAllows | api_yamdb/api/views.py:82-85 | both classes must allow: safe methods always pass; writes need a signed-in caller, and writes to a stored object also need the object check |
| Permissions.AuthenticatedOrReadOnlyAllows | api_yamdb/api/views.py:82-85 | safe methods always pass; others iff the caller is signed in |
| Permissions.AuthenticatedAllows | api_yamdb/api/views.py:122-126 | allowed iff the caller is signed in, and then every method passes the read-only variant too |
| Permissions.Denied | api_yamdb/api/views.py:82-85 | a refusal is "not authenticated" iff the caller is anonymous, otherwise "permission denied" |
| Serializers.CheckText | api_yamdb/api/serializers.py:119-120 | a text field passes iff it is non-empty (unless blanks are allowed) and within its maximum length |
| Serializers.SignupFields | api_yamdb/api/serializers.py:119-120 | the signup fields pass iff the e-mail is well formed and at most 254 long and the username is non-empty and at most 150 long |
| Serializers.ValidateSignup | api_yamdb/api/serializers.py:122-139 | passes iff the fields pass, the username is not "me" and the username exists exactly when the e-mail does, returning the data unchanged; "me", a taken username alone and a taken e-mail alone each give their own error |
| Serializers.TokenFields | api_yamdb/api/serializers.py:144-145 | the token fields pass iff the username is 1..150 long and the code 1..200 long |
| Serializers.ValidateToken | api_yamdb/api/serializers.py:147-152 | an unknown username is "not found"; a stored user whose code does not check gives the invalid-code error; otherwise the data comes back unchanged |
| Serializers.ValidateYear | api_yamdb/api/serializers.py:37-42 | passes iff the year is not after the current year; the value is unchanged |
| Serializers.TitleYear | api_yamdb/api/serializers.py:37-42 | model validator then form validator: from 1899 on, exactly the years up to the current one pass |
| Serializers.ValidateReview | api_yamdb/api/serializers.py:76-86 | on POST passes iff the title exists and the caller has no review of it, with "not found" and the duplicate error otherwise; other methods pass |
| Serializers.ReviewFields | api_yamdb/reviews/models.py:124-130 | passes iff the text is non-empty and the score lies in 1..10 |
| Serializers.CommentFields | api_yamdb/reviews/models.py:153 | passes iff the text is non-empty |
| Serializers.CheckUsername | api_yamdb/reviews/models.py:19-28 | passes iff the username is 1..150 long, matches the pattern and no other user has it |
| Serializers.CheckEmail | api_yamdb/reviews/models.py:29 | passes iff the e-mail is 1..254 long, well formed and no other user has it |
| Serializers.ValidateUserPatch | api_yamdb/api/serializers.py:108-114 | passes iff every field present is acceptable, including a role that is one of the three choices |
| Serializers.RatingField | api_yamdb/api/serializers.py:58 | the rating is absent iff the mean is, and otherwise is the mean's integer part |
| Serializers.QuotientInScoreRange | api_yamdb/api/serializers.py:58 | the integer part of a mean of scores in 1..10 lies in 1..10 |
| Serializers.RatingFieldInRange | api_yamdb/api/serializers.py:58 | on a consistent database every rating shown lies in 1..10 |
| Serializers.EightAndTenGiveNine | api_yamdb/api/serializers.py:58 | reviews scoring 8 and 10 on a title with no other review give the mean 18 over 2, shown as the rating 9 |
| Filters.LowerString | api_yamdb/api/filters.py:11-14 | lower-casing keeps the length, leaves no upper-case ASCII letter and keeps every other character |
| Filters.LowerStringIdempotent | api_yamdb/api/filters.py:11-14 | lower-casing twice is lower-casing once |
| Filters.ContainsIgnoringCaseIsCaseBlind | api_yamdb/api/filters.py:11-14 | the `icontains` lookup ignores case on both sides, every name contains itself and the empty text |
| Filters.Rows | api_yamdb/api/filters.py:10 | a title contributes rows iff it meets every given parameter |
| Filters.Matches | api_yamdb/api/filters.py:9-15 | with no parameter given every title matches; a matching name search is never longer than the name |
| Filters.Apply | api_yamdb/api/filters.py:7-19 | a title is in the filtered list iff it was in the input and meets every given parameter |
| Filters.ApplyIsKeep | api_yamdb/api/filters.py:10 | without duplicate genre slugs on a title, the genre join lists each matching title exactly once, in order |
| Filters.KeepKeepsOrder | api_yamdb/api/filters.py:7-19 | filtering a list in key order leaves it in key order |
| Filters.NoParametersKeepsAll | api_yamdb/api/filters.py:17-19 | with no parameter given, or only empty ones, the list is unchanged |
| Views.Authenticate | api_yamdb/api/views.py:169-171 | no credentials means anonymous; a token is accepted iff its user is stored, and a refusal is "not authenticated" |
| Views.NewUser | api_yamdb/api/views.py:147-150 | the created user has the given username and e-mail, the default role and no admin flags |
| Views.Signup | api_yamdb/api/views.py:143-160 | errors change nothing; an existing pair is reused; a new pair adds one user with the default role; a username and e-mail taken by different users end in a constraint failure with nothing changed; the schema is kept |
| Views.SignupIdempotent | api_yamdb/api/views.py:147-150 | repeating a successful signup changes nothing and names the same user |
| Views.SaveUser | api_yamdb/api/views.py:132-135 | each field present in the request is written and each absent one kept; the role is the one given and the flags are kept |
| Views.PatchKeepsValid | api_yamdb/api/views.py:132-135 | saving a validated update of one's own row keeps the schema |
| Views.SerializerFor | api_yamdb/api/views.py:47-50 | the write form iff the action is create, update or partial update |
| Views.RecordGenresDistinct | api_yamdb/reviews/models.py:83 | genre slugs are unique, so no title shows one genre slug twice |
| Views.Records | api_yamdb/api/views.py:41 | every stored title appears, each as its own record, in strictly increasing key order |
| Views.RecordsApplyIsKeep | api_yamdb/api/filters.py:10 | on a consistent database the genre join over the title records lists each matching title exactly once, in order |
| Views.ListingProperties | api_yamdb/api/views.py:41-44 | on a consistent database the filter lists every stored title that meets the query, and nothing else, once each, with every rating in 1..10; the list is in key order, which is the model's choice since the queryset has no ordering |
| Views.Store.constructor | api_yamdb/reviews/models.py:13-155 | the store starts from a database that satisfies the schema |
| Views.Store.SignupRequest | api_yamdb/api/views.py:141-160 | the new tables and the answer are those of the signup function, and the schema is kept |
| Views.Store.TokenRequest | api_yamdb/api/views.py:163-172 | succeeds iff the token form passes, and then names the stored user with that username whose code checks |
| Views.Store.Me | api_yamdb/api/views.py:122-138 | succeeds iff the caller is a stored user and, for PATCH, the update validates; no credentials or an unknown token is "not authenticated" and a failing update a validation error; GET returns the caller's row and changes nothing; PATCH writes the caller's row only, with the role kept |
| Views.Store.CreateReview | api_yamdb/api/views.py:91-93 | succeeds iff the caller is signed in, the fields pass, the title exists and the caller has no review of it; no credentials or an unknown token is "not authenticated", failing fields or a second review a validation error, a missing title "not found"; exactly one review is added |
| Views.Store.CreateComment | api_yamdb/api/views.py:109-111 | succeeds iff the caller is signed in, the text is non-empty and the review exists; no credentials or an unknown token is "not authenticated", an empty text a blank-field error, a missing review "not found"; exactly one comment is added |
| Views.Store.ListReviews | api_yamdb/api/views.py:87-89 | succeeds iff the caller is anonymous or stored and the title exists, with exactly the title's reviews; a missing title is "not found" |
| Views.Store.ListComments | api_yamdb/api/views.py:105-107 | succeeds iff the caller is anonymous or stored and the review exists, with exactly its comments; an unknown token is "not authenticated", a missing review "not found" |
| Views.Store.ListTitles | api_yamdb/api/views.py:39-45 | open to everyone; the filtered list with ratings, holding every stored title that meets the query and only those, each rating in 1..10 |
| Views.Store.ListUsers | api_yamdb/api/views.py:114-120 | succeeds iff the caller is a signed-in admin, with every user; no credentials or an unknown token is "not authenticated", a stored non-admin "permission denied" |
| Views.Store.DestroyReview | api_yamdb/api/views.py:79-89 | succeeds iff the caller is signed in, the review belongs to the title and the object check allows; no credentials or an unknown token is "not authenticated", a missing review or one under another title "not found", a plain user who is not the author "permission denied"; the review and its comments go |
| Views.Store.DestroyComment | api_yamdb/api/views.py:96-107 | succeeds iff the caller is signed in, the comment belongs to the review and the object check allows; no credentials or an unknown token is "not authenticated", a missing comment or one under another review "not found", a plain user who is not the author "permission denied"; only the comment goes |
| Views.Store.DestroyTitle | api_yamdb/api/views.py:39-45 | succeeds iff the caller is an admin and the title exists; no credentials or an unknown token is "not authenticated", a stored non-admin "permission denied", a missing title "not found"; the title and its reviews and comments go |
| Views.Store.DestroyCategory | api_yamdb/api/views.py:53-70 | succeeds iff the caller is an admin and a category has the slug; no credentials or an unknown token is "not authenticated", a stored non-admin "permission denied", an unknown slug "not found"; the cascade follows |
| Views.Store.DestroyGenre | api_yamdb/api/views.py:53-76 | succeeds iff the caller is an admin and a genre has the slug; no credentials or an unknown token is "not authenticated", a stored non-admin "permission denied", an unknown slug "not found"; only its links follow |
| Views.Store.DestroyUser | api_yamdb/api/views.py:114-120 | succeeds iff the caller is an admin and a user has the username; no credentials or an unknown token is "not authenticated", a stored non-admin "permission denied", an unknown username "not found"; the user's reviews and comments go |

## Left out

- Sending the confirmation e-mail is not modelled. Signup returns the user the code is made for.
- The token generator is a parameter `checkToken`. How codes are derived, and how they expire, is not modelled.
- Minting and signing access tokens is not modelled. A bearer token is modelled as the key of the user it was issued for.
- The e-mail format check is a parameter `isEmail`.
- The current year is a parameter instead of a clock reading.
- Usernames use an ASCII reading of `\w`. The name filter folds ASCII case only.
- The framework's trimming of surrounding whitespace in text fields is not modelled.
- The average score is kept exact, as a sum over a count. The database's floating-point average is not modelled.
- Views.Store.TokenRequest returns the user key the token is issued for, not the token itself.
- Creating and updating titles, categories and genres is not modelled. Neither are admin edits of users or edits of reviews and comments.
- The category and genre list search and the title detail view are not modelled.
- Pagination is not modelled.
- Publication timestamps and the ordering by them are not modelled.
- The URL patterns' positive-key rule is not modelled. Keys are natural numbers.
- DestroyUser: the URL `users/me/` is routed to the `me` action, which has no DELETE, and a username holding a `.` cannot be addressed by the default lookup pattern; the model deletes such users, while the service answers 405 and 404.
- Authentication runs before every handler in the service, so a bad bearer token is refused even on signup and token exchange; the model's signup and token handlers take no credentials.
- The order of the title list is the model's choice (key order); the queryset has none.
- Concurrency is not modelled. A race between signup's validation and its insert is not modelled either; each request runs alone.
- When several fields are invalid, the model names one error. The framework reports them all.
- All tables share one key counter.
- Integer column ranges are not modelled. Integers are unbounded.
- Views.Store.ListReviews and Views.Store.ListComments return keys, not serialized rows.
