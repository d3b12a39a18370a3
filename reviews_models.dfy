/**
 * The catalogue and review tables: the records, the constraints the schema declares (unique
 * names and slugs, one review per author and title, score bounds, foreign keys) and what each
 * `on_delete` rule does to the tables when a row is deleted.
 */
module ReviewsModels {
  import opened Wrappers
  import opened UsersModels

  type CategoryId = nat
  type GenreId = nat
  type TitleId = nat
  type LinkId = nat
  type ReviewId = nat
  type CommentId = nat

  /** The shared shape of `Category` and `Genre` (`AbstractCategoryGenreModel`). */
  datatype Taxon = Taxon(name: string, slug: string)

  /** `Title`; `year` is nullable, `category` becomes null when its category is deleted. */
  datatype Title = Title(name: string, year: Option<int>, description: string, category: Option<CategoryId>)

  /** `TitleGenre`: the through table of `Title.genre`. */
  datatype TitleGenre = TitleGenre(title: TitleId, genre: GenreId)

  datatype Review = Review(author: UserId, title: TitleId, text: string, score: int)

  datatype Comment = Comment(author: UserId, review: ReviewId, text: string)

  /** The bounds of the score validators. */
  const MinScore: int := 1
  const MaxScore: int := 10

  predicate ScoreInRange(score: int) {
    MinScore <= score <= MaxScore
  }

  /** The rows of every table the core touches, keyed by primary key. */
  datatype Tables = Tables(
    users: map<UserId, User>,
    categories: map<CategoryId, Taxon>,
    genres: map<GenreId, Taxon>,
    titles: map<TitleId, Title>,
    titleGenres: map<LinkId, TitleGenre>,
    reviews: map<ReviewId, Review>,
    comments: map<CommentId, Comment>)

  const EmptyTables: Tables := Tables(map[], map[], map[], map[], map[], map[], map[])

  /** `unique=True` on both `name` and `slug` of a category or genre table. */
  ghost predicate TaxaUnique(m: map<nat, Taxon>) {
    forall a, b :: a in m && b in m && a != b ==> m[a].name != m[b].name && m[a].slug != m[b].slug
  }

  /** The `unique_review_per_author` constraint on (author, title). */
  ghost predicate OneReviewPerAuthorAndTitle(reviews: map<ReviewId, Review>) {
    forall a, b :: a in reviews && b in reviews && a != b ==>
      (reviews[a].author, reviews[a].title) != (reviews[b].author, reviews[b].title)
  }

  /** Every foreign key names an existing row. */
  ghost predicate ReferencesResolve(db: Tables) {
    && (forall k :: k in db.titles && db.titles[k].category.Some? ==> db.titles[k].category.value in db.categories)
    && (forall k :: k in db.titleGenres ==> db.titleGenres[k].title in db.titles && db.titleGenres[k].genre in db.genres)
    && (forall k :: k in db.reviews ==> db.reviews[k].author in db.users && db.reviews[k].title in db.titles)
    && (forall k :: k in db.comments ==> db.comments[k].author in db.users && db.comments[k].review in db.reviews)
  }

  ghost predicate ScoresInRange(reviews: map<ReviewId, Review>) {
    forall k :: k in reviews ==> ScoreInRange(reviews[k].score)
  }

  /**
   * Every invariant the API keeps: the unique and foreign-key constraints of the schema, and the
   * score range of the model-field validators, which only the API path enforces.
   */
  ghost predicate Consistent(db: Tables) {
    && UsernamesUnique(db.users) && EmailsUnique(db.users)
    && TaxaUnique(db.categories) && TaxaUnique(db.genres)
    && OneReviewPerAuthorAndTitle(db.reviews)
    && ScoresInRange(db.reviews)
    && ReferencesResolve(db)
  }

  lemma EmptyTablesConsistent()
    ensures Consistent(EmptyTables)
  {
  }

  /** Whether some row of `m` has this name or this slug. */
  predicate NameTaken(m: map<nat, Taxon>, name: string) {
    exists k :: k in m && m[k].name == name
  }

  predicate SlugTaken(m: map<nat, Taxon>, slug: string) {
    exists k :: k in m && m[k].slug == slug
  }

  /** Whether `author` already reviewed `title`. */
  predicate HasReviewed(reviews: map<ReviewId, Review>, author: UserId, title: TitleId) {
    exists k :: k in reviews && reviews[k].author == author && reviews[k].title == title
  }

  /** Rewriting one user row keeps the schema's constraints when the new username and email are not another user's. */
  lemma ReplaceUserKeepsConsistency(db: Tables, id: UserId, u: User)
    requires Consistent(db) && id in db.users
    requires forall k :: k in db.users && k != id ==> db.users[k].username != u.username && db.users[k].email != u.email
    ensures Consistent(db.(users := db.users[id := u]))
  {
    var users := db.users[id := u];
    assert users.Keys == db.users.Keys;
    assert UsernamesUnique(users) && EmailsUnique(users);
  }

  /** A new user row keeps the constraints when its username and email are not taken yet. */
  lemma InsertUserKeepsConsistency(db: Tables, id: UserId, u: User)
    requires Consistent(db) && id !in db.users
    requires forall k :: k in db.users ==> db.users[k].username != u.username && db.users[k].email != u.email
    ensures Consistent(db.(users := db.users[id := u]))
  {
    var users := db.users[id := u];
    assert UsernamesUnique(users) && EmailsUnique(users);
  }

  /** A new category keeps the constraints when its name and slug are not taken yet. */
  lemma InsertCategoryKeepsConsistency(db: Tables, id: CategoryId, t: Taxon)
    requires Consistent(db) && id !in db.categories
    requires !NameTaken(db.categories, t.name) && !SlugTaken(db.categories, t.slug)
    ensures Consistent(db.(categories := db.categories[id := t]))
  {
    assert TaxaUnique(db.categories[id := t]);
  }

  /** A new genre keeps the constraints when its name and slug are not taken yet. */
  lemma InsertGenreKeepsConsistency(db: Tables, id: GenreId, t: Taxon)
    requires Consistent(db) && id !in db.genres
    requires !NameTaken(db.genres, t.name) && !SlugTaken(db.genres, t.slug)
    ensures Consistent(db.(genres := db.genres[id := t]))
  {
    assert TaxaUnique(db.genres[id := t]);
  }

  /** A new review keeps the constraints when its references resolve, its score is in range and its author has not reviewed the title. */
  lemma InsertReviewKeepsConsistency(db: Tables, id: ReviewId, r: Review)
    requires Consistent(db) && id !in db.reviews
    requires r.author in db.users && r.title in db.titles && ScoreInRange(r.score)
    requires !HasReviewed(db.reviews, r.author, r.title)
    ensures Consistent(db.(reviews := db.reviews[id := r]))
  {
    assert OneReviewPerAuthorAndTitle(db.reviews[id := r]);
  }

  /** A new comment keeps the constraints when its author and review exist. */
  lemma InsertCommentKeepsConsistency(db: Tables, id: CommentId, c: Comment)
    requires Consistent(db) && c.author in db.users && c.review in db.reviews
    ensures Consistent(db.(comments := db.comments[id := c]))
  {
  }

  /** A new title keeps the constraints when its category, if any, exists. */
  lemma InsertTitleKeepsConsistency(db: Tables, id: TitleId, t: Title)
    requires Consistent(db) && (t.category.Some? ==> t.category.value in db.categories)
    ensures Consistent(db.(titles := db.titles[id := t]))
  {
  }

  /** A new genre link keeps the constraints when its title and genre exist. */
  lemma InsertTitleGenreKeepsConsistency(db: Tables, id: LinkId, link: TitleGenre)
    requires Consistent(db) && link.title in db.titles && link.genre in db.genres
    ensures Consistent(db.(titleGenres := db.titleGenres[id := link]))
  {
  }

  /** The genres linked to title `t`: what `title.genre.all()` reads through `TitleGenre`. */
  function GenresOf(links: map<LinkId, TitleGenre>, t: TitleId): set<GenreId> {
    set k | k in links && links[k].title == t :: links[k].genre
  }

  /** `after` keeps every link of `before` and adds links for title `t` only. */
  ghost predicate LinksExtendFor(before: map<LinkId, TitleGenre>, after: map<LinkId, TitleGenre>, t: TitleId) {
    && (forall k :: k in before ==> k in after && after[k] == before[k])
    && (forall k :: k in after && k !in before ==> after[k].title == t)
  }

  /** Adding a link for title `t` adds exactly its genre to the genres of `t` and changes no other title's. */
  lemma {:induction false} GenresOfInsert(links: map<LinkId, TitleGenre>, id: LinkId, link: TitleGenre, t: TitleId)
    requires id !in links
    ensures GenresOf(links[id := link], t) == if link.title == t then GenresOf(links, t) + {link.genre} else GenresOf(links, t)
  {
    var after := links[id := link];
    forall g | g in GenresOf(after, t)
      ensures g in GenresOf(links, t) || (link.title == t && g == link.genre)
    {
      var k :| k in after && after[k].title == t && after[k].genre == g;
      if k != id {
        assert links[k].title == t && links[k].genre == g;
      }
    }
    forall g | g in GenresOf(links, t)
      ensures g in GenresOf(after, t)
    {
      var k :| k in links && links[k].title == t && links[k].genre == g;
      assert after[k] == links[k];
    }
    if link.title == t {
      assert after[id].genre == link.genre;
    }
  }

  // ----- on_delete rules -----

  /** Deleting Title `t`: its genre links and its reviews cascade, and the reviews' comments with them. */
  function DeleteTitleCascade(db: Tables, t: TitleId): Tables {
    var doomed := set k | k in db.reviews && db.reviews[k].title == t;
    db.(titles := db.titles - {t},
        titleGenres := map k | k in db.titleGenres && db.titleGenres[k].title != t :: db.titleGenres[k],
        reviews := db.reviews - doomed,
        comments := map k | k in db.comments && db.comments[k].review !in doomed :: db.comments[k])
  }

  /** Deleting Review `r`: its comments cascade. */
  function DeleteReviewCascade(db: Tables, r: ReviewId): Tables {
    db.(reviews := db.reviews - {r},
        comments := map k | k in db.comments && db.comments[k].review != r :: db.comments[k])
  }

  /** Deleting Comment `c`: nothing refers to a comment. */
  function DeleteCommentRow(db: Tables, c: CommentId): Tables {
    db.(comments := db.comments - {c})
  }

  /** Deleting Category `c`: its titles stay, with `category` set to null (SET_NULL). */
  function DeleteCategorySetNull(db: Tables, c: CategoryId): Tables {
    db.(categories := db.categories - {c},
        titles := map k | k in db.titles ::
          if db.titles[k].category == Some(c) then db.titles[k].(category := None) else db.titles[k])
  }

  /** Deleting Genre `g`: its links to titles cascade; the titles stay. */
  function DeleteGenreCascade(db: Tables, g: GenreId): Tables {
    db.(genres := db.genres - {g},
        titleGenres := map k | k in db.titleGenres && db.titleGenres[k].genre != g :: db.titleGenres[k])
  }

  /** Deleting user `u`: the reviews and comments they wrote cascade, and the comments on those reviews. */
  function DeleteUserCascade(db: Tables, u: UserId): Tables {
    var doomed := set k | k in db.reviews && db.reviews[k].author == u;
    db.(users := db.users - {u},
        reviews := db.reviews - doomed,
        comments := map k | k in db.comments && db.comments[k].author != u && db.comments[k].review !in doomed
                          :: db.comments[k])
  }

  // ----- what the rules guarantee -----

  /** Each delete rule leaves a consistent database consistent. */
  lemma DeleteTitleKeepsConsistency(db: Tables, t: TitleId)
    requires Consistent(db)
    ensures Consistent(DeleteTitleCascade(db, t))
  {
  }

  lemma DeleteReviewKeepsConsistency(db: Tables, rv: ReviewId)
    requires Consistent(db)
    ensures Consistent(DeleteReviewCascade(db, rv))
  {
  }

  lemma DeleteCommentKeepsConsistency(db: Tables, c: CommentId)
    requires Consistent(db)
    ensures Consistent(DeleteCommentRow(db, c))
  {
  }

  lemma DeleteCategoryKeepsConsistency(db: Tables, c: CategoryId)
    requires Consistent(db)
    ensures Consistent(DeleteCategorySetNull(db, c))
  {
  }

  lemma DeleteGenreKeepsConsistency(db: Tables, g: GenreId)
    requires Consistent(db)
    ensures Consistent(DeleteGenreCascade(db, g))
  {
  }

  lemma DeleteUserKeepsConsistency(db: Tables, u: UserId)
    requires Consistent(db)
    ensures Consistent(DeleteUserCascade(db, u))
  {
  }

  /**
   * Deleting a title removes exactly its reviews and, transitively, exactly the comments on
   * them; every other row is kept unchanged, and the title's genre links go with it.
   */
  lemma DeleteTitleRemovesItsSubtree(db: Tables, t: TitleId)
    requires Consistent(db)
    ensures var r := DeleteTitleCascade(db, t);
      && t !in r.titles
      && (forall k :: k in r.titles <==> k in db.titles && k != t)
      && (forall k :: k in db.reviews ==> (k in r.reviews <==> db.reviews[k].title != t))
      && (forall k :: k in db.comments ==>
            (k in r.comments <==> db.reviews[db.comments[k].review].title != t))
      && (forall k :: k in db.titleGenres ==> (k in r.titleGenres <==> db.titleGenres[k].title != t))
      && (forall k :: k in r.titles ==> r.titles[k] == db.titles[k])
      && (forall k :: k in r.reviews ==> k in db.reviews && r.reviews[k] == db.reviews[k])
      && (forall k :: k in r.comments ==> k in db.comments && r.comments[k] == db.comments[k])
      && (forall k :: k in r.titleGenres ==> k in db.titleGenres && r.titleGenres[k] == db.titleGenres[k])
      && r.users == db.users && r.categories == db.categories && r.genres == db.genres
  {
  }

  /** Deleting a review removes it and exactly the comments on it; every other row is kept unchanged. */
  lemma DeleteReviewRemovesItsComments(db: Tables, rv: ReviewId)
    ensures var r := DeleteReviewCascade(db, rv);
      && rv !in r.reviews
      && (forall k :: k in r.reviews <==> k in db.reviews && k != rv)
      && (forall k :: k in r.reviews ==> r.reviews[k] == db.reviews[k])
      && (forall k :: k in db.comments ==> (k in r.comments <==> db.comments[k].review != rv))
      && (forall k :: k in r.comments ==> k in db.comments && r.comments[k] == db.comments[k])
      && r.titles == db.titles && r.users == db.users && r.categories == db.categories
      && r.genres == db.genres && r.titleGenres == db.titleGenres
  {
  }

  /**
   * Deleting a category keeps every title: the titles that pointed at it now have a null
   * category and are otherwise unchanged, every other title is untouched, and the other
   * categories all stay.
   */
  lemma DeleteCategoryKeepsTitles(db: Tables, c: CategoryId)
    ensures var r := DeleteCategorySetNull(db, c);
      && c !in r.categories
      && (forall k :: k in r.categories <==> k in db.categories && k != c)
      && (forall k :: k in r.categories ==> r.categories[k] == db.categories[k])
      && r.titles.Keys == db.titles.Keys
      && (forall k :: k in r.titles ==> r.titles[k].category != Some(c))
      && (forall k :: k in db.titles ==>
            r.titles[k] == (if db.titles[k].category == Some(c) then db.titles[k].(category := None) else db.titles[k]))
      && r.reviews == db.reviews && r.comments == db.comments && r.titleGenres == db.titleGenres
      && r.users == db.users && r.genres == db.genres
  {
  }

  /** Deleting a genre removes it and exactly its links; every title and every other row stays. */
  lemma DeleteGenreRemovesItsLinks(db: Tables, g: GenreId)
    ensures var r := DeleteGenreCascade(db, g);
      && g !in r.genres
      && (forall k :: k in r.genres <==> k in db.genres && k != g)
      && (forall k :: k in r.genres ==> r.genres[k] == db.genres[k])
      && (forall k :: k in db.titleGenres ==> (k in r.titleGenres <==> db.titleGenres[k].genre != g))
      && (forall k :: k in r.titleGenres ==> k in db.titleGenres && r.titleGenres[k] == db.titleGenres[k])
      && r.titles == db.titles && r.reviews == db.reviews && r.comments == db.comments
      && r.users == db.users && r.categories == db.categories
  {
  }

  /**
   * Deleting a user removes every review and comment they wrote, and the comments others left
   * on their reviews; every other user, and every review and comment that survives, is kept
   * unchanged.
   */
  lemma DeleteUserRemovesTheirWriting(db: Tables, u: UserId)
    requires Consistent(db)
    ensures var r := DeleteUserCascade(db, u);
      && u !in r.users
      && (forall k :: k in r.users <==> k in db.users && k != u)
      && (forall k :: k in r.users ==> r.users[k] == db.users[k])
      && (forall k :: k in r.reviews ==> k in db.reviews && r.reviews[k] == db.reviews[k])
      && (forall k :: k in r.comments ==> k in db.comments && r.comments[k] == db.comments[k])
      && r.titles == db.titles && r.categories == db.categories && r.genres == db.genres
      && r.titleGenres == db.titleGenres
      && (forall k :: k in r.reviews ==> r.reviews[k].author != u)
      && (forall k :: k in r.comments ==> r.comments[k].author != u)
      && (forall k :: k in db.comments && db.reviews[db.comments[k].review].author == u ==> k !in r.comments)
      && (forall k :: k in db.reviews && db.reviews[k].author != u ==> k in r.reviews)
      && (forall k :: k in db.comments ==>
            (k in r.comments <==> db.comments[k].author != u && db.reviews[db.comments[k].review].author != u))
  {
  }
}
