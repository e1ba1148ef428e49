# Bulletin board: a Dafny model of its records, views, forms and admin actions

This project models the record-level logic of a Django classifieds board
(bulletinboard/). Users sign up, publish announcements (posts) in categories,
comment on them and keep a profile. The admin site re-stamps or prunes
selected posts.

The database is a `Db.Store` object. It holds one table per model (users,
profiles, categories, posts, comments). Each table is a `map` from primary key
to row, with its own auto-increment counter. A foreign key is the referenced
row's id. `Store.Valid()` states the schema's invariants:

- every key was handed out by its counter;
- every foreign key points at an existing row;
- every row keeps the length bounds of its model;
- usernames are unique;
- no user has two profiles (the one-to-one link).

Every method that changes the store keeps `Valid()`. Each one's `modifies`
clause names the only fields it may change, counters included. Its `ensures`
gives the new value of each of those fields, and an error leaves the store
`unchanged`. The `on_delete=CASCADE` rules are the store's delete methods.

Time is a `Calendar.Timestamp`: whole seconds since 0001-01-01T00:00:00 UTC.
`Calendar` rebuilds `datetime.date()` and `date.isoformat()` from that count,
because a post's string form embeds the day it was published. The requester
(`Db.Requester`: anonymous or a logged-in user id) and the current time are
parameters of the views.

Modules:

- `Results`: the `Option`, `Result` and `Error` values. `LoginRequired` is the
  redirect of `login_required`. `NotFound` is a 404 (in the admin, a redirect to its index with a "does not exist" message). `PermissionDenied` is the
  edit view's exception. `Invalid` is a form that does not validate, re-shown
  with nothing saved. `FieldError` is Django's error for a lookup on a missing
  field.
- `Calendar`: dates, ordinals, zero-padded digits and the ISO date text.
- `Query`: what the views ask of the ORM. Rows come in primary-key order (an
  argument-less `annotate()`). A filter keeps that order, and `[:n]` is a
  prefix. `order_by('-date')` is a permutation sorted newest first.
- `Models`: the record shapes, their bounds, `publish()` and the `__str__`
  forms. `UserStr`, `ProfileStr` (bulletinboard/models.py:14-15) and
  `CategoryStr` (bulletinboard/models.py:24-25) give the username and the
  category name as they are.
- `Forms`: the editable fields of each form, what each accepts, and
  `SignupForm.clean_email`.
- `Db`: the store, its invariants and its cascades.
- `Views`: the listing pages as functions; the handlers that save or delete as
  methods on the store.
- `Admin`: `pub_now`, `delete_old_announcement` (as written and as meant), and
  the post change form with its read-only `published_date`.

Some behaviour of the code may surprise a reader. The model keeps it:

- Deleting a post checks only that the requester is logged in. It does not
  check authorship, so any logged-in user can delete any post.
- The edit view has no login wrapper. An anonymous requester is not the
  author, so it gets `PermissionDenied`, not a login redirect.
- No view applies `publish()`. The home page, the full list, the category
  page and the detail page all show future-dated posts.
- None of models.py, views.py, forms.py and admin.py creates a profile or
  rejects a future birth date; the model does neither.
- The profile form carries the `user` field. So the owner of a profile can
  hand it to another user who has none.
- The post's price is a blank-allowed float in the code, not a required
  number.

## Model

| member | source | states |
|---|---|---|
| Calendar.DateOf | bulletinboard/models.py:49 | `published_date.date()`: the result is a valid calendar date whose day count is the timestamp divided by 86400 |
| Calendar.OrdinalRoundTrip | bulletinboard/models.py:49 | converting a valid date to its day count and back gives the same date, so each timestamp has exactly one day |
| Calendar.Padded | bulletinboard/models.py:48-49 | zero padding yields decimal digits that spell `n`, at least `width` long and exactly `width` long when `n` fits |
| Calendar.DateTextRoundTrip | bulletinboard/models.py:48-49 | the ISO text of a date in years 1 to 9999 is ten characters and parses back to the same date |
| Query.IdsBelow | bulletinboard/views.py:28 | an argument-less `annotate()` holds exactly the stored rows, in strictly ascending key order |
| Query.Where | bulletinboard/views.py:87 | a filter keeps exactly the listed ids that pass the test, never grows, and keeps ascending order |
| Query.Take | bulletinboard/views.py:19 | `[:n]`, of a queryset here and of the comment text in bulletinboard/models.py:60, has length min(n, length) and is a prefix of its input |
| Query.SortNewestFirst | bulletinboard/views.py:44 | `order_by('-date')` is ordered newest first and is a permutation of its input |
| Models.Publish | bulletinboard/models.py:28-31 | `publish()` keeps exactly the posts of the queryset dated no later than now and drops none of them; a queryset in key order stays in key order |
| Models.PostStr | bulletinboard/models.py:47-50 | the string starts with "Announcement: " and the title, and ends with ", Author: " and the username |
| Models.PostStrShowsDate | bulletinboard/models.py:47-50 | in the string, ", date: " follows the title, then ten characters that parse back to the day the post was published |
| Models.CommentStr | bulletinboard/models.py:59-60 | the string is the author, " : ", the first min(10, \|text\|) characters of the text, and "..." |
| Models.CommentStrShortText | bulletinboard/models.py:60 | a text of at most ten characters is shown whole and still followed by "..." |
| Models.CommentStrLongText | bulletinboard/models.py:60 | a longer text is cut to its first ten characters |
| Forms.ApplyPostForm | bulletinboard/forms.py:11 | an edit through the post form sets exactly its five fields; author and date stay; an unchanged form leaves the post as it was |
| Forms.NewPost | bulletinboard/views.py:101-103 | a created post has the form's five fields, the requester as author and now as its date |
| Forms.NewComment | bulletinboard/forms.py:31 | a new comment takes only its text from the form; author, post and date come from the view; it fits the model's bounds iff the form is valid |
| Forms.CleanEmail | bulletinboard/forms.py:84-89 | a non-empty email held by another user is refused; any other email, empty ones included, comes back unchanged; a missing username excludes nobody |
| Forms.SignupKeepsEmailsDistinct | bulletinboard/forms.py:84-89 | signing up through the form never gives a second user a non-empty email that is already taken |
| Db.ForgetPostsKeepsLinks | bulletinboard/models.py:56 | deleting posts with their comments leaves no comment pointing at a deleted post |
| Db.ForgetCategoryKeepsLinks | bulletinboard/models.py:42 | once a category's posts are deleted, no post refers to the category |
| Db.ForgetUserKeepsLinks | bulletinboard/models.py:38-54 | once a user's profile, posts, the comments on those posts and the user's own comments are deleted, nothing refers to the user |
| Db.RestampKeepsLinks | bulletinboard/admin.py:31 | giving posts a new date keeps the set of posts, every link and every bound |
| Db.Store.constructor | bulletinboard/models.py:6-57 | the store starts with every table empty, and its invariants hold |
| Db.Store.InsertUser | bulletinboard/views.py:180 | a new user gets a fresh id, and exactly that row is added |
| Db.Store.InsertProfile | bulletinboard/models.py:10 | a profile is added only for an existing user without one, which keeps profiles one-to-one |
| Db.Store.InsertCategory | bulletinboard/models.py:22 | a category of 1 to 100 characters is added under a fresh id |
| Db.Store.InsertPost | bulletinboard/models.py:38-44 | a bounded post with an existing author and category is added under a fresh id |
| Db.Store.InsertComment | bulletinboard/models.py:54-57 | a bounded comment by an existing user on an existing post is added under a fresh id |
| Db.Store.UpdatePost | bulletinboard/views.py:124 | exactly one post row is replaced, and the store's invariants hold |
| Db.Store.UpdateProfile | bulletinboard/views.py:217 | exactly one profile row is replaced, and profiles stay one-to-one |
| Db.Store.UpdatePublishedDate | bulletinboard/admin.py:31 | the posts become their re-stamped version, and nothing else changes |
| Db.Store.DeletePosts | bulletinboard/models.py:56 | the given posts are deleted, with every comment on them, and nothing else changes |
| Db.Store.DeleteCategory | bulletinboard/models.py:42 | the category goes, with every post in it and every comment on those posts |
| Db.Store.DeleteUser | bulletinboard/models.py:10 | the user goes, with its profile, its posts, every comment on them, and its own comments |
| Views.LatestAnnouncements | bulletinboard/views.py:18-19 | the home page lists at most 8 posts, all stored, in key order; when it lists fewer it lists them all |
| Views.HomePageWithOnePost | bulletinboard/tests/test_views.py:28-34 | with a single post stored, the home page lists exactly that post, whatever its date |
| Views.HomePageIgnoresDates | bulletinboard/views.py:19 | the home page does not depend on publication dates: there is no publish filter |
| Views.AnnouncementsPage | bulletinboard/views.py:25-32 | the list exists iff the requester is logged in, and then it holds every post, future-dated ones too |
| Views.CategoryAnnouncements | bulletinboard/views.py:85-89 | exactly the posts of the category are listed, in key order, with no date filter |
| Views.ShownComments | bulletinboard/views.py:44 | exactly the post's comments are listed, each once, ordered by `date_publish` descending |
| Views.AnnouncementDetail | bulletinboard/views.py:41-48 | 404 iff the post does not exist; otherwise the page lists exactly the post's comments, each once, ordered by `date_publish` descending |
| Views.ProfileOf | bulletinboard/views.py:202-203 | 404 iff no profile belongs to the user; otherwise the result is a profile of that user |
| Views.ProfileOfIsTheProfile | bulletinboard/models.py:10 | with profiles one-to-one, the lookup finds the user's only profile |
| Views.CreateAnnouncement | bulletinboard/views.py:96-111 | anonymous: login redirect; invalid form: nothing saved; otherwise exactly one new post, by the requester, dated now |
| Views.EditAnnouncement | bulletinboard/views.py:120-124 | missing post: 404; anyone but the author (anonymous included): `PermissionDenied` with nothing changed; the author with an invalid form: `Invalid`, nothing saved; otherwise only that post's form fields change |
| Views.DeleteAnnouncement | bulletinboard/views.py:131-138 | succeeds iff the requester is logged in and the post exists, whoever wrote it; the post and its comments are deleted |
| Views.PostComment | bulletinboard/views.py:50-68 | anonymous: login redirect; missing post: 404; invalid form: nothing saved; otherwise exactly one new comment (requester, that post, now), and the page lists the post's comments newest first |
| Views.EditProfile | bulletinboard/views.py:213-217 | anonymous: login redirect; someone else's or a missing profile: 404 with nothing changed; the owner with an invalid form (no upload and no current avatar, or a user who has another profile): `Invalid`, nothing saved; otherwise only that profile changes, to the form's date, user and avatar |
| Views.Signup | bulletinboard/views.py:176-189 | a new user is added iff the sign-up form is valid; emails that were distinct stay distinct |
| Admin.FilterDatedBefore | bulletinboard/admin.py:14 | a `<field>__lte` lookup is a `FieldError` iff the name is no lookup name of `Post` (fields, `pk`, foreign-key columns, the reverse `comment`); on `published_date` it keeps the selected posts dated at or before the cutoff |
| Admin.DatePubIsNoField | bulletinboard/admin.py:14 | the lookup on `date_pub` fails with `FieldError` for every selection and time |
| Admin.OldPostSurvivesAsWritten | bulletinboard/admin.py:13-14 | a selected post published 20 weeks ago is pruned on `published_date` but survives the action as written |
| Admin.OldSelected | bulletinboard/admin.py:14 | exactly the selected posts dated at or before now minus 16 weeks |
| Admin.PruneKeepsTheRest | bulletinboard/admin.py:14 | a post survives the prune iff it was unselected or newer than the cutoff, and survivors are unchanged |
| Admin.DeleteOldAnnouncementAsWritten | bulletinboard/admin.py:13-14 | the action as written fails with `FieldError`; it modifies nothing |
| Admin.DeleteOldAnnouncement | bulletinboard/admin.py:13-14 | the selected posts dated at or before now minus 16 weeks are deleted, with their comments, and nothing else |
| Admin.PubNow | bulletinboard/admin.py:29-31 | the selected posts are re-stamped to now; only the post table may change |
| Admin.PubNowStampsSelection | bulletinboard/admin.py:31 | every selected post gets date now; unselected posts and every other field stay; no post is added or removed |
| Admin.PubNowPublishes | bulletinboard/admin.py:31 | right after `pub_now`, `publish()` shows a post iff it was already shown or was just selected |
| Admin.ApplyAdminForm | bulletinboard/admin.py:17-23 | the admin form sets author, image, title, description, category and price; `published_date` stays |
| Admin.ChangePost | bulletinboard/admin.py:23 | missing post: not found (the admin's redirect); invalid form: nothing saved; otherwise every field but the read-only `published_date` is taken from the form |

## Left out

- HTML rendering, templates, widgets, labels and the localized messages are not modelled. They are presentation only.
- URL routing is not modelled. Only its `login_required` facts are kept: creating, deleting, commenting and editing a profile need a login; editing a post does not.
- Authentication is not modelled: login, logout, password hashing and matching, and the password-reset mail. The requester is a parameter and is assumed to be a stored user. These are library calls.
- Image upload and file storage are not modelled. An image or avatar is its stored name, and the empty name means no file. A form's `image` or `avatar` is the cleaned value: on an edit with no upload it is the current file's name, so only "no upload and no current file" is the empty name.
- `price` is a `real` that is carried and never computed with. A float's rounding and a blank price (which the column cannot store) are not modelled.
- Parsing the birth date in `%d-%m-%Y` format is a library call and is not modelled. The profile form carries the parsed date.
- The rejection of future birth dates, which a test expects, is not modelled. None of models.py, views.py, forms.py and admin.py enforces it.
- Creating a profile when a user signs up is not modelled. None of models.py, views.py, forms.py and admin.py does it; the tests read a profile right after saving a user, so another module may.
- Admin.FilterDatedBefore: comparing a datetime with a column of another type (`description__lte=<datetime>`, say) is not modelled. The function covers names that are not fields of `Post`, and `published_date`.
- Email syntax validation is not modelled. Neither are the username's character rules, whitespace stripping of text fields, or the case rules of username uniqueness. All of these are library validation.
- `CategoryView` (all categories) and the login view are not modelled. They are outside the modelled core.
- Views.LatestAnnouncements, Views.AnnouncementsPage and Views.CategoryAnnouncements: the model fixes the order as primary-key order. Their querysets (bulletinboard/views.py:19, 28, 87) have no `order_by`, so their order is whatever the database returns.
- Views.ShownComments: comments with equal `date_publish` come in the order the sort leaves them. The database's tie order is not modelled.
- Admin.DeleteOldAnnouncement: the model does not capture `OverflowError` for a `now` less than 16 weeks after year 1.
- Calendar.DateTextRoundTrip: the model assumes years up to 9999, as Python's `datetime` does. A timestamp past year 9999 is not rejected.
- Admin actions on users and categories (their delete pages) are the store's `DeleteUser` and `DeleteCategory`. There is no separate admin wrapper.
- Concurrency and transactions are not modelled. Each handler runs alone.

## Findings

| source | as written | input that shows it | evidently intended | confidence | as-written member | corrected member |
|---|---|---|---|---|---|---|
| bulletinboard/admin.py:14 | `delete_old_announcement` filters on `date_pub__lte`, but `Post` has no field `date_pub`, so the lookup raises `FieldError` and nothing is ever deleted | any selection, e.g. one post whose `published_date` is 20 weeks before now | filter on `published_date`, the post's date field (bulletinboard/models.py:43), and delete the selected posts dated at or before now minus 16 weeks | high; not executed | Admin.DeleteOldAnnouncementAsWritten | Admin.DeleteOldAnnouncement |
