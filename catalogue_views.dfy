/**
 * The catalogue endpoints: categories and genres (create, delete by slug) and titles (create
 * with their genre links, delete). Writes need an authenticated admin; reads are open.
 */
module CatalogueViews {
  import opened Wrappers
  import opened Errors
  import opened UsersModels
  import opened ReviewsModels
  import opened Permissions
  import opened Serializers
  import opened Store

  /** POST `/categories/`: `AdminOrReadOnly`, then `CategoriesSerializer` with unique name and slug. */
  method CreateCategory(db: Database, caller: Option<UserId>, name: Option<string>, slug: Option<string>)
    returns (r: Result<CategoryId, ApiError>)
    requires db.Valid()
    modifies db
    ensures db.Valid()
    ensures var p := PrincipalOf(old(db.users), caller);
      var v := ValidateTaxon(old(db.categories), name, slug);
      && (!AdminOrReadOnly(Post, p) ==> r == Failure(Denied(p)) && db.Snapshot() == old(db.Snapshot()))
      && (AdminOrReadOnly(Post, p) && v.Failure? ==> r == Failure(v.error) && db.Snapshot() == old(db.Snapshot()))
      && (AdminOrReadOnly(Post, p) && v.Success? ==>
            r == Success(old(db.nextId)) && old(db.nextId) !in old(db.categories)
            && db.Snapshot() == old(db.Snapshot()).(categories := old(db.categories)[old(db.nextId) := v.value]))
  {
    var p := PrincipalOf(db.users, caller);
    if !AdminOrReadOnly(Post, p) {
      return Failure(Denied(p));
    }
    var v := ValidateTaxon(db.categories, name, slug);
    if v.Failure? {
      return Failure(v.error);
    }
    var id := db.InsertCategory(v.value);
    r := Success(id);
  }

  /** POST `/genres/`: as for a category, on the genre table. */
  method CreateGenre(db: Database, caller: Option<UserId>, name: Option<string>, slug: Option<string>)
    returns (r: Result<GenreId, ApiError>)
    requires db.Valid()
    modifies db
    ensures db.Valid()
    ensures var p := PrincipalOf(old(db.users), caller);
      var v := ValidateTaxon(old(db.genres), name, slug);
      && (!AdminOrReadOnly(Post, p) ==> r == Failure(Denied(p)) && db.Snapshot() == old(db.Snapshot()))
      && (AdminOrReadOnly(Post, p) && v.Failure? ==> r == Failure(v.error) && db.Snapshot() == old(db.Snapshot()))
      && (AdminOrReadOnly(Post, p) && v.Success? ==>
            r == Success(old(db.nextId)) && old(db.nextId) !in old(db.genres)
            && db.Snapshot() == old(db.Snapshot()).(genres := old(db.genres)[old(db.nextId) := v.value]))
  {
    var p := PrincipalOf(db.users, caller);
    if !AdminOrReadOnly(Post, p) {
      return Failure(Denied(p));
    }
    var v := ValidateTaxon(db.genres, name, slug);
    if v.Failure? {
      return Failure(v.error);
    }
    var id := db.InsertGenre(v.value);
    r := Success(id);
  }

  /** DELETE `/categories/{slug}/`: `AdminOrReadOnly`, the lookup by slug (404), then SET_NULL on its titles. */
  method DestroyCategory(db: Database, caller: Option<UserId>, slug: string)
    returns (r: Result<(), ApiError>)
    requires db.Valid()
    modifies db
    ensures db.Valid()
    ensures var p := PrincipalOf(old(db.users), caller);
      var found := LookupSlug(old(db.categories), slug);
      && (!AdminOrReadOnly(Delete, p) ==> r == Failure(Denied(p)) && db.Snapshot() == old(db.Snapshot()))
      && (AdminOrReadOnly(Delete, p) && found.None? ==> r == Failure(NotFound) && db.Snapshot() == old(db.Snapshot()))
      && (AdminOrReadOnly(Delete, p) && found.Some? ==>
            r == Success(()) && db.Snapshot() == DeleteCategorySetNull(old(db.Snapshot()), found.value))
  {
    var p := PrincipalOf(db.users, caller);
    if !AdminOrReadOnly(Delete, p) {
      return Failure(Denied(p));
    }
    var found := LookupSlug(db.categories, slug);
    if found.None? {
      return Failure(NotFound);
    }
    db.DeleteCategory(found.value);
    r := Success(());
  }

  /** DELETE `/genres/{slug}/`: `AdminOrReadOnly`, the lookup by slug (404), then the links cascade. */
  method DestroyGenre(db: Database, caller: Option<UserId>, slug: string)
    returns (r: Result<(), ApiError>)
    requires db.Valid()
    modifies db
    ensures db.Valid()
    ensures var p := PrincipalOf(old(db.users), caller);
      var found := LookupSlug(old(db.genres), slug);
      && (!AdminOrReadOnly(Delete, p) ==> r == Failure(Denied(p)) && db.Snapshot() == old(db.Snapshot()))
      && (AdminOrReadOnly(Delete, p) && found.None? ==> r == Failure(NotFound) && db.Snapshot() == old(db.Snapshot()))
      && (AdminOrReadOnly(Delete, p) && found.Some? ==>
            r == Success(()) && db.Snapshot() == DeleteGenreCascade(old(db.Snapshot()), found.value))
  {
    var p := PrincipalOf(db.users, caller);
    if !AdminOrReadOnly(Delete, p) {
      return Failure(Denied(p));
    }
    var found := LookupSlug(db.genres, slug);
    if found.None? {
      return Failure(NotFound);
    }
    db.DeleteGenre(found.value);
    r := Success(());
  }

  /**
   * POST `/titles/`: `AdminOrReadOnly`, then `TitleSerializer` (year through `validate_year`,
   * category and genres by slug), then the title row and one link per distinct genre.
   */
  method CreateTitle(db: Database, caller: Option<UserId>, currentYear: int, name: Option<string>,
                     year: Option<int>, description: Option<string>, category: Option<string>,
                     genres: Option<seq<string>>)
    returns (r: Result<TitleId, ApiError>)
    requires db.Valid()
    modifies db
    ensures db.Valid()
    ensures var p := PrincipalOf(old(db.users), caller);
      var v := ValidateTitle(old(db.Snapshot()), currentYear, name, year, description, category, genres);
      && (!AdminOrReadOnly(Post, p) ==> r == Failure(Denied(p)) && db.Snapshot() == old(db.Snapshot()))
      && (AdminOrReadOnly(Post, p) && v.Failure? ==> r == Failure(v.error) && db.Snapshot() == old(db.Snapshot()))
      && (AdminOrReadOnly(Post, p) && v.Success? ==>
            && r == Success(old(db.nextId)) && old(db.nextId) !in old(db.titles)
            && db.titles == old(db.titles)[old(db.nextId) := v.value.0]
            && GenresOf(db.titleGenres, old(db.nextId)) == v.value.1
            && db.Snapshot() == old(db.Snapshot()).(titles := db.titles, titleGenres := db.titleGenres)
            && LinksExtendFor(old(db.titleGenres), db.titleGenres, old(db.nextId)))
  {
    var p := PrincipalOf(db.users, caller);
    if !AdminOrReadOnly(Post, p) {
      return Failure(Denied(p));
    }
    var v := ValidateTitle(db.Snapshot(), currentYear, name, year, description, category, genres);
    if v.Failure? {
      return Failure(v.error);
    }
    var (t, gs) := v.value;
    var id := db.InsertTitle(t);
    assert GenresOf(db.titleGenres, id) == {} by {
      forall k | k in db.titleGenres ensures db.titleGenres[k].title != id {
      }
    }
    db.LinkGenres(id, gs);
    r := Success(id);
  }

  /** DELETE `/titles/{id}/`: `AdminOrReadOnly`, the lookup (404), then the cascade to links, reviews and comments. */
  method DestroyTitle(db: Database, caller: Option<UserId>, titleId: nat)
    returns (r: Result<(), ApiError>)
    requires db.Valid()
    modifies db
    ensures db.Valid()
    ensures var p := PrincipalOf(old(db.users), caller);
      && (!AdminOrReadOnly(Delete, p) ==> r == Failure(Denied(p)) && db.Snapshot() == old(db.Snapshot()))
      && (AdminOrReadOnly(Delete, p) && titleId !in old(db.titles) ==> r == Failure(NotFound) && db.Snapshot() == old(db.Snapshot()))
      && (AdminOrReadOnly(Delete, p) && titleId in old(db.titles) ==>
            r == Success(()) && db.Snapshot() == DeleteTitleCascade(old(db.Snapshot()), titleId))
  {
    var p := PrincipalOf(db.users, caller);
    if !AdminOrReadOnly(Delete, p) {
      return Failure(Denied(p));
    }
    if titleId !in db.titles {
      return Failure(NotFound);
    }
    db.DeleteTitle(titleId);
    r := Success(());
  }
}
