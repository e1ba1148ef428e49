/** The forms of the bulletin board (bulletinboard/forms.py): which fields
    each one lets a user set, what it accepts, and `SignupForm.clean_email`. */
module Forms {
  import opened Results
  import opened Calendar
  import opened Query
  import opened Models

  /** `AnnouncementPostForm`: title, description, category, image and price are
      the only post fields a user's form carries. */
  datatype PostForm = PostForm(title: string, description: string, category: nat, image: string, price: real)

  /** The post form validates: the model's length bounds, a category that
      exists (a model choice field) and an image, which the model does not let
      be blank (an empty name stands for no file). */
  predicate PostFormValid(f: PostForm, categories: map<nat, Category>) {
    1 <= |f.title| <= MaxTitle && |f.description| <= MaxDescription && f.category in categories && f.image != ""
  }

  /** The form's fields as read from a post. */
  function PostFormOf(p: Post): PostForm {
    PostForm(p.title, p.description, p.category, p.image, p.price)
  }

  /** Saving the post form over an existing post: the form's fields are taken,
      and the author and the publication date are kept. */
  function ApplyPostForm(p: Post, f: PostForm): (r: Post)
    ensures r.author == p.author && r.publishedDate == p.publishedDate
    ensures PostFormOf(r) == f
    ensures f == PostFormOf(p) ==> r == p
    ensures PostFits(r) <==> 1 <= |f.title| <= MaxTitle && |f.description| <= MaxDescription
  {
    p.(title := f.title, description := f.description, category := f.category,
       image := f.image, price := f.price)
  }

  /** `form.save(commit=False)` followed by the creating view's stamping of
      `published_date` and `author`. */
  function NewPost(f: PostForm, author: nat, now: Timestamp): (r: Post)
    ensures r.author == author && r.publishedDate == now
    ensures PostFormOf(r) == f
    ensures PostFits(r) <==> 1 <= |f.title| <= MaxTitle && |f.description| <= MaxDescription
  {
    Post(author, f.title, f.description, f.image, f.category, now, f.price)
  }

  /** `CommentForm`: the text is the only field a user sets. */
  datatype CommentForm = CommentForm(text: string)

  predicate CommentFormValid(f: CommentForm) {
    1 <= |f.text| <= MaxCommentText
  }

  /** The comment the detail view saves: author, post and date come from the
      request, only the text from the form. */
  function NewComment(f: CommentForm, author: nat, post: nat, now: Timestamp): (r: Comment)
    ensures r.author == author && r.inPost == post && r.datePublish == now && r.text == f.text
    ensures CommentFits(r) <==> CommentFormValid(f)
  {
    Comment(author, f.text, post, now)
  }

  /** `UpdateProfileForm`: the birth date (a required form field), the profile's
      user and the avatar. */
  datatype ProfileForm = ProfileForm(birthDate: Date, user: nat, avatar: string)

  /** The profile form validates when its date is a calendar date, its user
      exists, no profile other than `self` already belongs to that user (the
      one-to-one link is unique), and it has an avatar, which the model does
      not let be blank (an empty name stands for no file). */
  predicate ProfileFormValid(f: ProfileForm, users: map<nat, User>, profiles: map<nat, Profile>, self: nat) {
    && ValidDate(f.birthDate)
    && f.user in users
    && (forall k :: k in profiles && k != self ==> profiles[k].user != f.user)
    && f.avatar != ""
  }

  /** A user other than the one signing up holds `email`: the rows of
      `User.objects.filter(email=email).exclude(username=username)`. An absent
      username excludes nobody, since no stored username is null. */
  predicate HeldByAnother(u: User, email: string, username: Option<string>) {
    u.email == email && (username.None? || u.username != username.value)
  }

  /** `SignupForm.clean_email`: a non-empty email that another user already
      holds is refused; any other email is returned as it was given. The
      query runs over the user table, whose ids are all below `nextUser`. */
  function CleanEmail(users: map<nat, User>, nextUser: nat, email: string, username: Option<string>): (r: Result<string>)
    requires forall k :: k in users ==> k < nextUser
    ensures r == Ok(email) || r == Err(Invalid)
    ensures r.Err? <==> email != "" && exists k :: k in users && HeldByAnother(users[k], email, username)
  {
    var holders := Where(IdsBelow(users, nextUser), k => k in users && HeldByAnother(users[k], email, username));
    assert holders != [] ==> holders[0] in holders;
    assert forall k :: k in users && HeldByAnother(users[k], email, username) ==> k in holders;
    if email != "" && holders != [] then Err(Invalid) else Ok(email)
  }

  /** The user fields of `SignupForm`; passwords are not modelled. */
  datatype SignupForm = SignupForm(email: string, username: string)

  const MaxUsername: nat := 150

  /** The sign-up form validates: a username of 1 to 150 characters that no
      user has, and an email `clean_email` accepts. `clean_email` runs before
      the username is cleaned (email is the first field), so it sees no
      username. */
  predicate SignupValid(users: map<nat, User>, nextUser: nat, f: SignupForm)
    requires forall k :: k in users ==> k < nextUser
  {
    && 1 <= |f.username| <= MaxUsername
    && (forall k :: k in users ==> users[k].username != f.username)
    && CleanEmail(users, nextUser, f.email, None).Ok?
  }

  /** No two users share a non-empty email. */
  predicate EmailsDistinct(users: map<nat, User>) {
    forall k, j :: k in users && j in users && k != j && users[k].email != "" ==> users[k].email != users[j].email
  }

  /** Signing up through the form never creates a second holder of an email. */
  lemma SignupKeepsEmailsDistinct(users: map<nat, User>, nextUser: nat, f: SignupForm)
    requires forall k :: k in users ==> k < nextUser
    requires EmailsDistinct(users) && SignupValid(users, nextUser, f)
    ensures EmailsDistinct(users[nextUser := User(f.username, f.email)])
  {
    var r := CleanEmail(users, nextUser, f.email, None);
    assert forall k :: k in users && f.email != "" ==> !HeldByAnother(users[k], f.email, None);
  }
}
