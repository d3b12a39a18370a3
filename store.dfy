/**
 * The database as one object: a map per table, the constraints as its invariant, and the
 * `on_delete` behaviour of deleting a row.
 */
module Store {
  import opened Wrappers
  import opened Config
  import opened UsersModels
  import opened Validators
  import opened ReviewsModels

  /** The column constraints of a `User` row: username length and validator, email length, code length. */
  predicate UserFieldsValid(s: Settings, u: User) {
    && |u.username| <= s.usernameMaxLength && ValidateUsername(u.username).Success?
    && u.email != "" && |u.email| <= s.emailMaxLength
    && CodeFits(u, s.codeLength)
  }

  /** Every primary key in use lies below `n`, the next one to hand out. */
  ghost predicate KeysBelow(db: Tables, n: nat) {
    && (forall k :: k in db.users ==> k < n)
    && (forall k :: k in db.categories ==> k < n)
    && (forall k :: k in db.genres ==> k < n)
    && (forall k :: k in db.titles ==> k < n)
    && (forall k :: k in db.titleGenres ==> k < n)
    && (forall k :: k in db.reviews ==> k < n)
    && (forall k :: k in db.comments ==> k < n)
  }

  /** The schema's constraints, the user columns' constraints, and every key below `n`. */
  ghost predicate StoreInvariant(s: Settings, db: Tables, n: nat) {
    && Consistent(db)
    && KeysBelow(db, n)
    && forall k :: k in db.users ==> UserFieldsValid(s, db.users[k])
  }

  /** A user inserted under the next key keeps the invariant, with the next key one higher. */
  lemma InsertUserKeepsInvariant(s: Settings, db: Tables, n: nat, u: User)
    requires StoreInvariant(s, db, n) && UserFieldsValid(s, u) && (forall k :: k in db.users ==> db.users[k].username != u.username && db.users[k].email != u.email)
    ensures StoreInvariant(s, db.(users := db.users[n := u]), n + 1)
  {
    InsertUserKeepsConsistency(db, n, u);
  }

  /** A category inserted under the next key keeps the invariant, with the next key one higher. */
  lemma InsertCategoryKeepsInvariant(s: Settings, db: Tables, n: nat, t: Taxon)
    requires StoreInvariant(s, db, n) && !NameTaken(db.categories, t.name) && !SlugTaken(db.categories, t.slug)
    ensures StoreInvariant(s, db.(categories := db.categories[n := t]), n + 1)
  {
    InsertCategoryKeepsConsistency(db, n, t);
  }

  /** A genre inserted under the next key keeps the invariant, with the next key one higher. */
  lemma InsertGenreKeepsInvariant(s: Settings, db: Tables, n: nat, t: Taxon)
    requires StoreInvariant(s, db, n) && !NameTaken(db.genres, t.name) && !SlugTaken(db.genres, t.slug)
    ensures StoreInvariant(s, db.(genres := db.genres[n := t]), n + 1)
  {
    InsertGenreKeepsConsistency(db, n, t);
  }

  /** A title inserted under the next key keeps the invariant, with the next key one higher. */
  lemma InsertTitleKeepsInvariant(s: Settings, db: Tables, n: nat, t: Title)
    requires StoreInvariant(s, db, n) && (t.category.Some? ==> t.category.value in db.categories)
    ensures StoreInvariant(s, db.(titles := db.titles[n := t]), n + 1)
  {
    InsertTitleKeepsConsistency(db, n, t);
  }

  /** A genre link inserted under the next key keeps the invariant, with the next key one higher. */
  lemma InsertTitleGenreKeepsInvariant(s: Settings, db: Tables, n: nat, link: TitleGenre)
    requires StoreInvariant(s, db, n) && link.title in db.titles && link.genre in db.genres
    ensures StoreInvariant(s, db.(titleGenres := db.titleGenres[n := link]), n + 1)
  {
    InsertTitleGenreKeepsConsistency(db, n, link);
  }

  /** A review inserted under the next key keeps the invariant, with the next key one higher. */
  lemma InsertReviewKeepsInvariant(s: Settings, db: Tables, n: nat, r: Review)
    requires StoreInvariant(s, db, n) && r.author in db.users && r.title in db.titles && ScoreInRange(r.score) && !HasReviewed(db.reviews, r.author, r.title)
    ensures StoreInvariant(s, db.(reviews := db.reviews[n := r]), n + 1)
  {
    InsertReviewKeepsConsistency(db, n, r);
  }

  /** A comment inserted under the next key keeps the invariant, with the next key one higher. */
  lemma InsertCommentKeepsInvariant(s: Settings, db: Tables, n: nat, c: Comment)
    requires StoreInvariant(s, db, n) && c.author in db.users && c.review in db.reviews
    ensures StoreInvariant(s, db.(comments := db.comments[n := c]), n + 1)
  {
    InsertCommentKeepsConsistency(db, n, c);
  }

  /** `after` holds a subset of the rows of `before`, with the users' rows unchanged. */
  ghost predicate RowsShrink(before: Tables, after: Tables) {
    && after.users.Keys <= before.users.Keys && after.categories.Keys <= before.categories.Keys
    && after.genres.Keys <= before.genres.Keys && after.titles.Keys <= before.titles.Keys
    && after.titleGenres.Keys <= before.titleGenres.Keys && after.reviews.Keys <= before.reviews.Keys
    && after.comments.Keys <= before.comments.Keys
    && forall k :: k in after.users ==> after.users[k] == before.users[k]
  }

  /** Removing rows keeps every key below the bound and every user row valid. */
  lemma ShrinkKeepsInvariant(s: Settings, db: Tables, after: Tables, n: nat)
    requires StoreInvariant(s, db, n) && Consistent(after) && RowsShrink(db, after)
    ensures StoreInvariant(s, after, n)
  {
  }

  /** The on_delete rule for a title keeps the invariant. */
  lemma DeleteTitleKeepsInvariant(s: Settings, db: Tables, n: nat, t: TitleId)
    requires StoreInvariant(s, db, n)
    ensures StoreInvariant(s, DeleteTitleCascade(db, t), n)
  {
    DeleteTitleKeepsConsistency(db, t);
    ShrinkKeepsInvariant(s, db, DeleteTitleCascade(db, t), n);
  }

  /** The on_delete rule for a review keeps the invariant. */
  lemma DeleteReviewKeepsInvariant(s: Settings, db: Tables, n: nat, rv: ReviewId)
    requires StoreInvariant(s, db, n)
    ensures StoreInvariant(s, DeleteReviewCascade(db, rv), n)
  {
    DeleteReviewKeepsConsistency(db, rv);
    ShrinkKeepsInvariant(s, db, DeleteReviewCascade(db, rv), n);
  }

  /** The on_delete rule for a comment keeps the invariant. */
  lemma DeleteCommentKeepsInvariant(s: Settings, db: Tables, n: nat, c: CommentId)
    requires StoreInvariant(s, db, n)
    ensures StoreInvariant(s, DeleteCommentRow(db, c), n)
  {
    DeleteCommentKeepsConsistency(db, c);
    ShrinkKeepsInvariant(s, db, DeleteCommentRow(db, c), n);
  }

  /** The on_delete rule for a category keeps the invariant. */
  lemma DeleteCategoryKeepsInvariant(s: Settings, db: Tables, n: nat, c: CategoryId)
    requires StoreInvariant(s, db, n)
    ensures StoreInvariant(s, DeleteCategorySetNull(db, c), n)
  {
    DeleteCategoryKeepsConsistency(db, c);
    ShrinkKeepsInvariant(s, db, DeleteCategorySetNull(db, c), n);
  }

  /** The on_delete rule for a genre keeps the invariant. */
  lemma DeleteGenreKeepsInvariant(s: Settings, db: Tables, n: nat, g: GenreId)
    requires StoreInvariant(s, db, n)
    ensures StoreInvariant(s, DeleteGenreCascade(db, g), n)
  {
    DeleteGenreKeepsConsistency(db, g);
    ShrinkKeepsInvariant(s, db, DeleteGenreCascade(db, g), n);
  }

  /** The on_delete rule for a user keeps the invariant. */
  lemma DeleteUserKeepsInvariant(s: Settings, db: Tables, n: nat, u: UserId)
    requires StoreInvariant(s, db, n)
    ensures StoreInvariant(s, DeleteUserCascade(db, u), n)
  {
    DeleteUserKeepsConsistency(db, u);
    ShrinkKeepsInvariant(s, db, DeleteUserCascade(db, u), n);
  }

  class Database {
    const settings: Settings
    var users: map<UserId, User>
    var categories: map<CategoryId, Taxon>
    var genres: map<GenreId, Taxon>
    var titles: map<TitleId, Title>
    var titleGenres: map<LinkId, TitleGenre>
    var reviews: map<ReviewId, Review>
    var comments: map<CommentId, Comment>
    var nextId: nat

    /** The rows of every table. */
    function Snapshot(): Tables
      reads this
    {
      Tables(users, categories, genres, titles, titleGenres, reviews, comments)
    }

    ghost predicate Valid()
      reads this
    {
      StoreInvariant(settings, Snapshot(), nextId)
    }

    constructor (settings: Settings)
      ensures Valid() && this.settings == settings
      ensures Snapshot() == EmptyTables
    {
      this.settings := settings;
      users, categories, genres, titles := map[], map[], map[], map[];
      titleGenres, reviews, comments := map[], map[], map[];
      nextId := 0;
    }

    /** A primary key no table uses yet. */
    method FreshId() returns (id: nat)
      requires Valid()
      modifies this`nextId
      ensures Valid() && id == old(nextId) && nextId == id + 1
      ensures id !in users && id !in categories && id !in genres && id !in titles
      ensures id !in titleGenres && id !in reviews && id !in comments
    {
      id := nextId;
      nextId := nextId + 1;
    }

    /** `User.objects.create(…)` (and the create of `get_or_create`). */
    method InsertUser(u: User) returns (id: UserId)
      requires Valid() && UserFieldsValid(settings, u)
      requires forall k :: k in users ==> users[k].username != u.username && users[k].email != u.email
      modifies this
      ensures Valid() && id == old(nextId) && nextId == id + 1 && id !in old(users)
      ensures Snapshot() == old(Snapshot()).(users := old(users)[id := u])
    {
      InsertUserKeepsInvariant(settings, Snapshot(), nextId, u);
      ghost var after := Snapshot().(users := users[nextId := u]);
      id := FreshId();
      users := users[id := u];
      assert Snapshot() == after;
    }

    /** `Category.objects.create(…)`. */
    method InsertCategory(t: Taxon) returns (id: CategoryId)
      requires Valid() && !NameTaken(categories, t.name) && !SlugTaken(categories, t.slug)
      modifies this
      ensures Valid() && id == old(nextId) && nextId == id + 1 && id !in old(categories)
      ensures Snapshot() == old(Snapshot()).(categories := old(categories)[id := t])
    {
      InsertCategoryKeepsInvariant(settings, Snapshot(), nextId, t);
      ghost var after := Snapshot().(categories := categories[nextId := t]);
      id := FreshId();
      categories := categories[id := t];
      assert Snapshot() == after;
    }

    /** `Genre.objects.create(…)`. */
    method InsertGenre(t: Taxon) returns (id: GenreId)
      requires Valid() && !NameTaken(genres, t.name) && !SlugTaken(genres, t.slug)
      modifies this
      ensures Valid() && id == old(nextId) && nextId == id + 1 && id !in old(genres)
      ensures Snapshot() == old(Snapshot()).(genres := old(genres)[id := t])
    {
      InsertGenreKeepsInvariant(settings, Snapshot(), nextId, t);
      ghost var after := Snapshot().(genres := genres[nextId := t]);
      id := FreshId();
      genres := genres[id := t];
      assert Snapshot() == after;
    }

    /** `Title.objects.create(…)`, before its genre links are added. */
    method InsertTitle(t: Title) returns (id: TitleId)
      requires Valid() && (t.category.Some? ==> t.category.value in categories)
      modifies this
      ensures Valid() && id == old(nextId) && nextId == id + 1 && id !in old(titles)
      ensures Snapshot() == old(Snapshot()).(titles := old(titles)[id := t])
    {
      InsertTitleKeepsInvariant(settings, Snapshot(), nextId, t);
      ghost var after := Snapshot().(titles := titles[nextId := t]);
      id := FreshId();
      titles := titles[id := t];
      assert Snapshot() == after;
    }

    /** `title.genre.add(genre)`: one row of the through table. */
    method InsertTitleGenre(link: TitleGenre) returns (id: LinkId)
      requires Valid() && link.title in titles && link.genre in genres
      modifies this
      ensures Valid() && id == old(nextId) && nextId == id + 1 && id !in old(titleGenres)
      ensures Snapshot() == old(Snapshot()).(titleGenres := old(titleGenres)[id := link])
    {
      InsertTitleGenreKeepsInvariant(settings, Snapshot(), nextId, link);
      ghost var after := Snapshot().(titleGenres := titleGenres[nextId := link]);
      id := FreshId();
      titleGenres := titleGenres[id := link];
      assert Snapshot() == after;
    }

    /** `title.genre.set(gs)` on a title: one through row per genre, in any order. */
    method LinkGenres(t: TitleId, gs: set<GenreId>)
      requires Valid() && t in titles && gs <= genres.Keys
      modifies this
      ensures Valid()
      ensures GenresOf(titleGenres, t) == old(GenresOf(titleGenres, t)) + gs
      ensures Snapshot() == old(Snapshot()).(titleGenres := titleGenres)
      ensures LinksExtendFor(old(titleGenres), titleGenres, t)
    {
      var remaining := gs;
      while remaining != {}
        invariant Valid() && remaining <= gs && t in titles && gs <= genres.Keys
        invariant GenresOf(titleGenres, t) == old(GenresOf(titleGenres, t)) + (gs - remaining)
        invariant Snapshot() == old(Snapshot()).(titleGenres := titleGenres)
        invariant LinksExtendFor(old(titleGenres), titleGenres, t)
        decreases remaining
      {
        var g :| g in remaining;
        LinkGenre(t, g);
        remaining := remaining - {g};
      }
    }

    /** One through row linking title `t` to genre `g`. */
    method LinkGenre(t: TitleId, g: GenreId)
      requires Valid() && t in titles && g in genres
      modifies this
      ensures Valid()
      ensures GenresOf(titleGenres, t) == old(GenresOf(titleGenres, t)) + {g}
      ensures Snapshot() == old(Snapshot()).(titleGenres := titleGenres)
      ensures forall before :: LinksExtendFor(before, old(titleGenres), t) ==> LinksExtendFor(before, titleGenres, t)
    {
      GenresOfInsert(titleGenres, nextId, TitleGenre(t, g), t);
      var _ := InsertTitleGenre(TitleGenre(t, g));
    }

    /** `Review.objects.create(…)`. */
    method InsertReview(r: Review) returns (id: ReviewId)
      requires Valid() && r.author in users && r.title in titles && ScoreInRange(r.score)
      requires !HasReviewed(reviews, r.author, r.title)
      modifies this
      ensures Valid() && id == old(nextId) && nextId == id + 1 && id !in old(reviews)
      ensures Snapshot() == old(Snapshot()).(reviews := old(reviews)[id := r])
    {
      InsertReviewKeepsInvariant(settings, Snapshot(), nextId, r);
      ghost var after := Snapshot().(reviews := reviews[nextId := r]);
      id := FreshId();
      reviews := reviews[id := r];
      assert Snapshot() == after;
    }

    /** `Comment.objects.create(…)`. */
    method InsertComment(c: Comment) returns (id: CommentId)
      requires Valid() && c.author in users && c.review in reviews
      modifies this
      ensures Valid() && id == old(nextId) && nextId == id + 1 && id !in old(comments)
      ensures Snapshot() == old(Snapshot()).(comments := old(comments)[id := c])
    {
      InsertCommentKeepsInvariant(settings, Snapshot(), nextId, c);
      ghost var after := Snapshot().(comments := comments[nextId := c]);
      id := FreshId();
      comments := comments[id := c];
      assert Snapshot() == after;
    }

    /** `title.delete()`. */
    method DeleteTitle(t: TitleId)
      requires Valid()
      modifies this
      ensures Valid() && nextId == old(nextId)
      ensures Snapshot() == DeleteTitleCascade(old(Snapshot()), t)
    {
      DeleteTitleKeepsInvariant(settings, Snapshot(), nextId, t);
      var r := DeleteTitleCascade(Snapshot(), t);
      titles, titleGenres, reviews, comments := r.titles, r.titleGenres, r.reviews, r.comments;
      assert Snapshot() == r;
    }

    /** `review.delete()`. */
    method DeleteReview(rv: ReviewId)
      requires Valid()
      modifies this
      ensures Valid() && nextId == old(nextId)
      ensures Snapshot() == DeleteReviewCascade(old(Snapshot()), rv)
    {
      DeleteReviewKeepsInvariant(settings, Snapshot(), nextId, rv);
      var r := DeleteReviewCascade(Snapshot(), rv);
      reviews, comments := r.reviews, r.comments;
      assert Snapshot() == r;
    }

    /** `comment.delete()`. */
    method DeleteComment(c: CommentId)
      requires Valid()
      modifies this
      ensures Valid() && nextId == old(nextId)
      ensures Snapshot() == DeleteCommentRow(old(Snapshot()), c)
    {
      DeleteCommentKeepsInvariant(settings, Snapshot(), nextId, c);
      var r := DeleteCommentRow(Snapshot(), c);
      comments := r.comments;
      assert Snapshot() == r;
    }

    /** `category.delete()`. */
    method DeleteCategory(c: CategoryId)
      requires Valid()
      modifies this
      ensures Valid() && nextId == old(nextId)
      ensures Snapshot() == DeleteCategorySetNull(old(Snapshot()), c)
    {
      DeleteCategoryKeepsInvariant(settings, Snapshot(), nextId, c);
      var r := DeleteCategorySetNull(Snapshot(), c);
      categories, titles := r.categories, r.titles;
      assert Snapshot() == r;
    }

    /** `genre.delete()`. */
    method DeleteGenre(g: GenreId)
      requires Valid()
      modifies this
      ensures Valid() && nextId == old(nextId)
      ensures Snapshot() == DeleteGenreCascade(old(Snapshot()), g)
    {
      DeleteGenreKeepsInvariant(settings, Snapshot(), nextId, g);
      var r := DeleteGenreCascade(Snapshot(), g);
      genres, titleGenres := r.genres, r.titleGenres;
      assert Snapshot() == r;
    }

    /** `user.delete()`. */
    method DeleteUser(u: UserId)
      requires Valid()
      modifies this
      ensures Valid() && nextId == old(nextId)
      ensures Snapshot() == DeleteUserCascade(old(Snapshot()), u)
    {
      DeleteUserKeepsInvariant(settings, Snapshot(), nextId, u);
      var r := DeleteUserCascade(Snapshot(), u);
      users, reviews, comments := r.users, r.reviews, r.comments;
      assert Snapshot() == r;
    }
  }
}
