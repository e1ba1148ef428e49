/** The request handlers of bulletinboard/views.py. Listing pages are
    queries over the tables; the handlers that save or delete act on the
    store. The requester and the current time are parameters. */
module Views {
  import opened Results
  import opened Calendar
  import opened Query
  import opened Models
  import opened Forms
  import opened Db

  const HomePageSize: nat := 8

  /** `HomePageView.get_queryset`: `Post.objects.annotate()[:8]`, the first
      eight posts in primary-key order, with no publication-date filter. */
  function LatestAnnouncements(posts: map<nat, Post>, nextPost: nat): (r: seq<nat>)
    ensures |r| <= HomePageSize && Increasing(r)
    ensures forall k :: k in r ==> k in posts
    ensures |r| < HomePageSize ==> forall k :: k in posts && k < nextPost ==> k in r
  {
    var all := IdsBelow(posts, nextPost);
    var r := Take(all, HomePageSize);
    assert forall k :: k in r ==> k in all;
    r
  }

  /** With a single post stored, the home page lists exactly that post,
      whatever its publication date. */
  lemma HomePageWithOnePost(k: nat, p: Post, nextPost: nat)
    requires k < nextPost
    ensures LatestAnnouncements(map[k := p], nextPost) == [k]
  {
    IdsBelowSingleton(k, p, nextPost);
  }

  /** The home page depends on which posts exist, not on their dates: moving
      publication dates (into the future, say) changes nothing on it. */
  lemma HomePageIgnoresDates(a: map<nat, Post>, b: map<nat, Post>, nextPost: nat)
    requires a.Keys == b.Keys
    ensures LatestAnnouncements(a, nextPost) == LatestAnnouncements(b, nextPost)
  {
    IdsBelowKeysOnly(a, b, nextPost);
  }

  /** `AnnouncementsPageView.get`: every post, in primary-key order, for a
      logged-in requester; an anonymous one gets the page without the list. */
  function AnnouncementsPage(who: Requester, posts: map<nat, Post>, nextPost: nat): (r: Option<seq<nat>>)
    ensures r.Some? <==> who.Member?
    ensures r.Some? ==> Increasing(r.value) && forall k :: k in r.value <==> k in posts && k < nextPost
  {
    if who.Member? then Some(IdsBelow(posts, nextPost)) else None
  }

  /** `AnnouncementCategoryView.get`: `Post.objects.filter(category__pk=...)`,
      future-dated posts included. */
  function CategoryAnnouncements(posts: map<nat, Post>, nextPost: nat, category: nat): (r: seq<nat>)
    ensures Increasing(r)
    ensures forall k :: k in r <==> k in posts && k < nextPost && posts[k].category == category
  {
    Where(IdsBelow(posts, nextPost), k => k in posts && posts[k].category == category)
  }

  /** The sort key of `order_by('-date_publish')`. */
  function DatePublish(comments: map<nat, Comment>): nat -> int {
    k => if k in comments then comments[k].datePublish else 0
  }

  /** The comments a post's page shows: `filter(in_post__pk=post)` (or
      `post.comment_set`) ordered by `-date_publish`. */
  function ShownComments(comments: map<nat, Comment>, nextComment: nat, post: nat): (r: seq<nat>)
    ensures forall k :: k in r <==> k in comments && k < nextComment && comments[k].inPost == post
    ensures Distinct(r)
    ensures forall i, j :: 0 <= i < j < |r| ==> comments[r[i]].datePublish >= comments[r[j]].datePublish
  {
    var own := Where(IdsBelow(comments, nextComment), k => k in comments && comments[k].inPost == post);
    var r := SortNewestFirst(own, DatePublish(comments));
    assert Distinct(own);
    SameMultisetDistinct(own, r);
    assert forall k :: k in r <==> k in multiset(own);
    NewestFirstByDate(comments, r);
    r
  }

  lemma NewestFirstByDate(comments: map<nat, Comment>, r: seq<nat>)
    requires NewestFirst(r, DatePublish(comments)) && forall k :: k in r ==> k in comments
    ensures forall i, j :: 0 <= i < j < |r| ==> comments[r[i]].datePublish >= comments[r[j]].datePublish
  {
    forall i, j | 0 <= i < j < |r|
      ensures comments[r[i]].datePublish >= comments[r[j]].datePublish
    {
      assert DatePublish(comments)(r[i]) >= DatePublish(comments)(r[j]);
    }
  }

  /** `AnnouncementView.get`: 404 for a missing post, otherwise the post's
      comments, newest first. Detail pages are not filtered by `publish()`. */
  function AnnouncementDetail(posts: map<nat, Post>, comments: map<nat, Comment>, nextComment: nat, post: nat)
    : (r: Result<seq<nat>>)
    ensures r.Err? <==> post !in posts
    ensures r.Err? ==> r.error == NotFound
    ensures r.Ok? ==> forall k :: k in r.value <==> k in comments && k < nextComment && comments[k].inPost == post
    ensures r.Ok? ==> Distinct(r.value)
    ensures r.Ok? ==> forall i, j :: 0 <= i < j < |r.value| ==>
                        comments[r.value[i]].datePublish >= comments[r.value[j]].datePublish
  {
    if post in posts then Ok(ShownComments(comments, nextComment, post)) else Err(NotFound)
  }

  /** `ProfileView.get_object`: `get_object_or_404(Profile, user__id=user)`. */
  function ProfileOf(profiles: map<nat, Profile>, nextProfile: nat, user: nat): (r: Result<nat>)
    ensures r.Ok? ==> r.value in profiles && r.value < nextProfile && profiles[r.value].user == user
    ensures r.Err? <==> forall k :: k in profiles && k < nextProfile ==> profiles[k].user != user
    ensures r.Err? ==> r.error == NotFound
  {
    var found := Where(IdsBelow(profiles, nextProfile), k => k in profiles && profiles[k].user == user);
    if found == [] then Err(NotFound)
    else
      assert found[0] in found;
      Ok(found[0])
  }

  /** With profiles one-to-one, the lookup finds the user's only profile. */
  lemma ProfileOfIsTheProfile(profiles: map<nat, Profile>, nextProfile: nat, user: nat, k: nat)
    requires OneProfileEach(profiles)
    requires k in profiles && k < nextProfile && profiles[k].user == user
    ensures ProfileOf(profiles, nextProfile, user) == Ok(k)
  {
    var r := ProfileOf(profiles, nextProfile, user);
    assert r.Ok?;
  }

  /** `CreateAnnouncementView.post` (login required): a valid form saves one
      new post whose author is the requester and whose date is now; an invalid
      form saves nothing. */
  method CreateAnnouncement(s: Store, who: Requester, f: PostForm, now: Timestamp) returns (r: Result<nat>)
    requires s.Valid() && s.Authentic(who)
    modifies s`posts, s`nextPost
    ensures s.Valid()
    ensures who.Anonymous? ==> r == Err(LoginRequired)
    ensures who.Member? && !PostFormValid(f, old(s.categories)) ==> r == Err(Invalid)
    ensures r.Ok? <==> who.Member? && PostFormValid(f, old(s.categories))
    ensures r.Ok? ==> r.value !in old(s.posts) && s.posts == old(s.posts)[r.value := NewPost(f, who.uid, now)]
                      && s.nextPost == old(s.nextPost) + 1
    ensures r.Err? ==> unchanged(s)
  {
    if who.Anonymous? {
      return Err(LoginRequired);
    }
    if !PostFormValid(f, s.categories) {
      return Err(Invalid);
    }
    var id := s.InsertPost(NewPost(f, who.uid, now));
    r := Ok(id);
  }

  /** `EditAnnouncementView` (no login wrapper): 404 for a missing post,
      `PermissionDenied` unless the requester is the post's author (an
      anonymous requester never is), then the form's five fields are saved
      over the post; its author and date stay. */
  method EditAnnouncement(s: Store, who: Requester, post: nat, f: PostForm) returns (r: Result<nat>)
    requires s.Valid() && s.Authentic(who)
    modifies s`posts
    ensures s.Valid()
    ensures post !in old(s.posts) ==> r == Err(NotFound)
    ensures post in old(s.posts) && who != Member(old(s.posts)[post].author) ==> r == Err(PermissionDenied)
    ensures (post in old(s.posts) && who == Member(old(s.posts)[post].author)
             && !PostFormValid(f, old(s.categories))) ==> r == Err(Invalid)
    ensures r.Ok? <==> post in old(s.posts) && who == Member(old(s.posts)[post].author)
                       && PostFormValid(f, old(s.categories))
    ensures r.Ok? ==> r.value == post && s.posts == old(s.posts)[post := ApplyPostForm(old(s.posts)[post], f)]
    ensures r.Err? ==> unchanged(s)
  {
    if post !in s.posts {
      return Err(NotFound);
    }
    var p := s.posts[post];
    if who != Member(p.author) {
      return Err(PermissionDenied);
    }
    if !PostFormValid(f, s.categories) {
      return Err(Invalid);
    }
    s.UpdatePost(post, ApplyPostForm(p, f));
    r := Ok(post);
  }

  /** `DeleteAnnouncementView` (login required): 404 for a missing post,
      otherwise the post and its comments are deleted. There is no author
      check: any logged-in user may delete any post. */
  method DeleteAnnouncement(s: Store, who: Requester, post: nat) returns (r: Result<nat>)
    requires s.Valid()
    modifies s`posts, s`comments
    ensures s.Valid()
    ensures who.Anonymous? ==> r == Err(LoginRequired)
    ensures who.Member? && post !in old(s.posts) ==> r == Err(NotFound)
    ensures r.Ok? <==> who.Member? && post in old(s.posts)
    ensures r.Ok? ==> r.value == post && s.posts == PostsOutside(old(s.posts), {post})
                      && s.comments == CommentsOutside(old(s.comments), {post})
    ensures r.Err? ==> unchanged(s)
  {
    if who.Anonymous? {
      return Err(LoginRequired);
    }
    if post !in s.posts {
      return Err(NotFound);
    }
    s.DeletePosts({post});
    r := Ok(post);
  }

  /** `AnnouncementView.post` (login required): 404 for a missing post; a
      valid comment form saves one comment by the requester on that post,
      dated now, and the page lists the post's comments newest first; an
      invalid form saves nothing. */
  method PostComment(s: Store, who: Requester, post: nat, f: CommentForm, now: Timestamp)
    returns (r: Result<seq<nat>>)
    requires s.Valid() && s.Authentic(who)
    modifies s`comments, s`nextComment
    ensures s.Valid()
    ensures who.Anonymous? ==> r == Err(LoginRequired)
    ensures who.Member? && post !in old(s.posts) ==> r == Err(NotFound)
    ensures who.Member? && post in old(s.posts) && !CommentFormValid(f) ==> r == Err(Invalid)
    ensures r.Ok? <==> who.Member? && post in old(s.posts) && CommentFormValid(f)
    ensures r.Ok? ==> old(s.nextComment) !in old(s.comments)
                      && s.comments == old(s.comments)[old(s.nextComment) := NewComment(f, who.uid, post, now)]
                      && s.nextComment == old(s.nextComment) + 1
                      && r.value == ShownComments(s.comments, s.nextComment, post)
    ensures r.Err? ==> unchanged(s)
  {
    if who.Anonymous? {
      return Err(LoginRequired);
    }
    if post !in s.posts {
      return Err(NotFound);
    }
    if !CommentFormValid(f) {
      return Err(Invalid);
    }
    var id := s.InsertComment(NewComment(f, who.uid, post, now));
    r := Ok(ShownComments(s.comments, s.nextComment, post));
  }

  /** `EditProfileView` (login required): 404 unless the profile of user `user`
      exists and that user is the requester ("It is not your profile!"); then
      the form's birth date, user and avatar are saved, so the owner can hand
      the profile to another user who has none. */
  method EditProfile(s: Store, who: Requester, user: nat, f: ProfileForm) returns (r: Result<nat>)
    requires s.Valid() && s.Authentic(who)
    modifies s`profiles
    ensures s.Valid()
    ensures who.Anonymous? ==> r == Err(LoginRequired)
    ensures who.Member? && who.uid != user ==> r == Err(NotFound)
    ensures who.Member? && ProfileOf(old(s.profiles), old(s.nextProfile), user).Err? ==> r == Err(NotFound)
    ensures (who == Member(user) && ProfileOf(old(s.profiles), old(s.nextProfile), user).Ok?
             && !ProfileFormValid(f, old(s.users), old(s.profiles),
                                  ProfileOf(old(s.profiles), old(s.nextProfile), user).value)) ==> r == Err(Invalid)
    ensures r.Ok? <==> who == Member(user) && ProfileOf(old(s.profiles), old(s.nextProfile), user).Ok?
                       && ProfileFormValid(f, old(s.users), old(s.profiles),
                                           ProfileOf(old(s.profiles), old(s.nextProfile), user).value)
    ensures r.Ok? ==> r.value == ProfileOf(old(s.profiles), old(s.nextProfile), user).value
                      && s.profiles == old(s.profiles)[r.value := Profile(f.user, Some(f.birthDate), f.avatar)]
    ensures r.Err? ==> unchanged(s)
  {
    if who.Anonymous? {
      return Err(LoginRequired);
    }
    var found := ProfileOf(s.profiles, s.nextProfile, user);
    if found.Err? {
      return Err(NotFound);
    }
    var id := found.value;
    if s.profiles[id].user != who.uid {
      return Err(NotFound);
    }
    if !ProfileFormValid(f, s.users, s.profiles, id) {
      return Err(Invalid);
    }
    s.UpdateProfile(id, Profile(f.user, Some(f.birthDate), f.avatar));
    r := Ok(id);
  }

  /** `SignupView.post`: a valid sign-up form saves one new user with the
      given username and email. */
  method Signup(s: Store, f: SignupForm) returns (r: Result<nat>)
    requires s.Valid()
    modifies s`users, s`nextUser
    ensures s.Valid()
    ensures r.Ok? <==> SignupValid(old(s.users), old(s.nextUser), f)
    ensures r.Ok? ==> r.value !in old(s.users) && s.users == old(s.users)[r.value := User(f.username, f.email)]
                      && s.nextUser == old(s.nextUser) + 1
    ensures r.Err? ==> r.error == Invalid && unchanged(s)
    ensures EmailsDistinct(old(s.users)) ==> EmailsDistinct(s.users)
  {
    if !SignupValid(s.users, s.nextUser, f) {
      return Err(Invalid);
    }
    if EmailsDistinct(s.users) {
      SignupKeepsEmailsDistinct(s.users, s.nextUser, f);
    }
    var id := s.InsertUser(User(f.username, f.email));
    r := Ok(id);
  }
}
