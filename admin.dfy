/** The admin site of bulletinboard/admin.py: the post change form with its
    read-only publication date, and the two bulk actions on a selection of
    posts. The selection is a set of post ids; the current time is a
    parameter. */
module Admin {
  import opened Results
  import opened Calendar
  import opened Models
  import opened Db

  /** `datetime.timedelta(weeks=16)` in seconds. */
  const SixteenWeeks: nat := 16 * 7 * SecondsPerDay

  /** The names a lookup on `Post` may start with: its fields, its primary
      key and the `pk` alias, the column names of its foreign keys, and
      `comment`, the reverse side of `Comment.in_post`. */
  const PostFieldNames: set<string> := {
    "id", "pk", "author", "author_id", "announcement_title", "description", "announcement_image",
    "category", "category_id", "published_date", "price", "comment"}

  /** `queryset.filter(<field>__lte=cutoff)` over the selection, with a
      datetime `cutoff`: `FieldError` when `field` is no name of `Post`;
      otherwise, on `published_date`, the selected posts dated at or before
      `cutoff`. */
  function FilterDatedBefore(posts: map<nat, Post>, selected: set<nat>, field: string, cutoff: int)
    : (r: Result<set<nat>>)
    requires field == "published_date" || field !in PostFieldNames
    ensures r.Err? <==> field !in PostFieldNames
    ensures r.Err? ==> r.error == FieldError
    ensures r.Ok? ==> forall k :: k in r.value <==> k in selected && k in posts && posts[k].publishedDate <= cutoff
  {
    if field !in PostFieldNames then Err(FieldError)
    else Ok(set k | k in selected && k in posts && posts[k].publishedDate <= cutoff)
  }

  /** The lookup `delete_old_announcement` builds names `date_pub`, which is
      not a field of `Post`: the filter fails for every selection and time. */
  lemma DatePubIsNoField(posts: map<nat, Post>, selected: set<nat>, now: Timestamp)
    ensures FilterDatedBefore(posts, selected, "date_pub", now - SixteenWeeks) == Err(FieldError)
  {
    assert "date_pub" !in PostFieldNames;
  }

  /** A post published 20 weeks before `now` and selected is removed by the
      prune on `published_date`, while the action as written removes
      nothing. */
  lemma OldPostSurvivesAsWritten(p: Post, now: Timestamp)
    requires p.publishedDate + 20 * 7 * SecondsPerDay == now
    ensures FilterDatedBefore(map[0 := p], {0}, "date_pub", now - SixteenWeeks).Err?
    ensures FilterDatedBefore(map[0 := p], {0}, "published_date", now - SixteenWeeks) == Ok({0})
    ensures 0 !in PostsOutside(map[0 := p], OldSelected(map[0 := p], {0}, now))
  {
    DatePubIsNoField(map[0 := p], {0}, now);
    var r := FilterDatedBefore(map[0 := p], {0}, "published_date", now - SixteenWeeks);
    assert r.value == {0};
    assert 0 in OldSelected(map[0 := p], {0}, now);
  }

  /** The selected posts dated at or before sixteen weeks before `now`. */
  function OldSelected(posts: map<nat, Post>, selected: set<nat>, now: Timestamp): (r: set<nat>)
    ensures forall k :: k in r <==> k in selected && k in posts && posts[k].publishedDate + SixteenWeeks <= now
  {
    FilterDatedBefore(posts, selected, "published_date", now - SixteenWeeks).value
  }

  /** A post survives the prune exactly when it was not selected or is newer
      than the cutoff; the survivors are unchanged. */
  lemma PruneKeepsTheRest(posts: map<nat, Post>, selected: set<nat>, now: Timestamp)
    ensures var left := PostsOutside(posts, OldSelected(posts, selected, now));
      && (forall k :: k in left <==> k in posts && (k !in selected || posts[k].publishedDate + SixteenWeeks > now))
      && (forall k :: k in left ==> left[k] == posts[k])
  {
  }

  /** `delete_old_announcement` as written: the lookup on `date_pub` raises
      `FieldError` before anything is deleted. */
  method DeleteOldAnnouncementAsWritten(s: Store, selected: set<nat>, now: Timestamp) returns (r: Result<set<nat>>)
    requires s.Valid()
    ensures r == Err(FieldError)
  {
    // Building the lookup raises, so the `.delete()` after it never runs.
    r := FilterDatedBefore(s.posts, selected, "date_pub", now - SixteenWeeks);
    DatePubIsNoField(s.posts, selected, now);
  }

  /** `delete_old_announcement` on `published_date`, the field meant: the
      selected posts dated at or before now minus sixteen weeks are deleted
      with their comments. */
  method DeleteOldAnnouncement(s: Store, selected: set<nat>, now: Timestamp) returns (r: Result<set<nat>>)
    requires s.Valid()
    modifies s`posts, s`comments
    ensures s.Valid()
    ensures r == Ok(OldSelected(old(s.posts), selected, now))
    ensures s.posts == PostsOutside(old(s.posts), r.value)
    ensures s.comments == CommentsOutside(old(s.comments), r.value)
  {
    r := FilterDatedBefore(s.posts, selected, "published_date", now - SixteenWeeks);
    if r.Ok? {
      s.DeletePosts(r.value);
    }
  }

  /** `PostAdmin.pub_now`: `queryset.update(published_date=now)`. */
  method PubNow(s: Store, selected: set<nat>, now: Timestamp)
    requires s.Valid()
    modifies s`posts
    ensures s.Valid()
    ensures s.posts == Restamped(old(s.posts), selected, now)
  {
    s.UpdatePublishedDate(selected, now);
  }

  /** After `pub_now` every selected post has date `now`, every other post and
      every other field is as it was, and no post is added or removed. */
  lemma PubNowStampsSelection(posts: map<nat, Post>, selected: set<nat>, now: Timestamp)
    ensures var r := Restamped(posts, selected, now);
      && r.Keys == posts.Keys
      && (forall k :: k in r && k in selected ==> r[k].publishedDate == now)
      && (forall k :: k in r && k !in selected ==> r[k] == posts[k])
      && (forall k :: k in r ==> r[k].(publishedDate := 0) == posts[k].(publishedDate := 0))
  {
  }

  /** The published listing right after `pub_now`: a post of the queryset is
      shown exactly when it was already shown or was just selected. */
  lemma PubNowPublishes(posts: map<nat, Post>, selected: set<nat>, qs: seq<nat>, now: Timestamp)
    ensures forall k :: (k in Publish(Restamped(posts, selected, now), qs, now)
                         <==> k in Publish(posts, qs, now) || (k in qs && k in posts && k in selected))
  {
  }

  /** The fields of the admin's post change form (`PostAdmin.fieldsets`, and
      the columns of the user page's post inline); `published_date` is shown
      read-only and so is not among them. */
  datatype AdminPostForm = AdminPostForm(
    author: nat, image: string, title: string, description: string, category: nat, price: real)

  /** Saving the admin form over a post: every editable field is taken from
      the form, and the publication date stays. */
  function ApplyAdminForm(p: Post, f: AdminPostForm): (r: Post)
    ensures r.publishedDate == p.publishedDate
    ensures AdminPostForm(r.author, r.image, r.title, r.description, r.category, r.price) == f
  {
    Post(f.author, f.title, f.description, f.image, f.category, p.publishedDate, f.price)
  }

  /** The admin form validates: an existing author and category, an image,
      and the model's length bounds. */
  predicate AdminPostFormValid(f: AdminPostForm, users: map<nat, User>, categories: map<nat, Category>) {
    && f.author in users && f.category in categories && f.image != ""
    && 1 <= |f.title| <= MaxTitle && |f.description| <= MaxDescription
  }

  /** Saving a post from the admin change form: a missing post is not found
      (the admin answers it with a redirect to its index and a "does not
      exist" message rather than a 404), an invalid form saves nothing, and a
      valid one rewrites every field but `published_date`. */
  method ChangePost(s: Store, post: nat, f: AdminPostForm) returns (r: Result<nat>)
    requires s.Valid()
    modifies s`posts
    ensures s.Valid()
    ensures post !in old(s.posts) ==> r == Err(NotFound)
    ensures post in old(s.posts) && !AdminPostFormValid(f, old(s.users), old(s.categories)) ==> r == Err(Invalid)
    ensures r.Ok? <==> post in old(s.posts) && AdminPostFormValid(f, old(s.users), old(s.categories))
    ensures r.Ok? ==> s.posts == old(s.posts)[post := ApplyAdminForm(old(s.posts)[post], f)]
                      && s.posts[post].publishedDate == old(s.posts)[post].publishedDate
    ensures r.Err? ==> unchanged(s)
  {
    if post !in s.posts {
      return Err(NotFound);
    }
    if !AdminPostFormValid(f, s.users, s.categories) {
      return Err(Invalid);
    }
    s.UpdatePost(post, ApplyAdminForm(s.posts[post], f));
    r := Ok(post);
  }
}
