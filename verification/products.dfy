/** The catalogue rules of `ProductsService`
    (src/products/products.service.ts) over an in-memory table of products
    kept in row order. The database is reduced to what the rules observe:
    the unique constraints on `title` and `slug`, reported with Postgres'
    error code and detail text, and an arbitrary failure `fault` that stands
    for every other error the driver can raise. */
module Products {
  import opened Wrappers
  import opened Text
  import Seqs
  import opened Users
  import opened Slug

  /** A row of `product_images`; only its `url` is observable. */
  datatype ProductImage = ProductImage(url: string)

  /** A row of `products` with its eagerly loaded images and owner. */
  datatype Product = Product(
    id: string,
    title: string,
    description: Option<string>,
    slug: string,
    stock: int,
    sizes: seq<string>,
    gender: string,
    tags: seq<string>,
    images: seq<ProductImage>,
    user: User)

  /** A product as the service returns it: images flattened to their urls,
      and the owner absent when the row was read through the query builder,
      which does not load eager relations. */
  datatype ProductView = ProductView(
    id: string,
    title: string,
    description: Option<string>,
    slug: string,
    stock: int,
    sizes: seq<string>,
    gender: string,
    tags: seq<string>,
    images: seq<string>,
    user: Option<User>)

  /** The create body; optional members are `None` when left out. */
  datatype CreateProductDto = CreateProductDto(
    title: string,
    description: Option<string>,
    slug: Option<string>,
    stock: Option<int>,
    sizes: seq<string>,
    gender: string,
    tags: Option<seq<string>>,
    images: Option<seq<string>>)

  /** The update body: every member of the create body, each optional. */
  datatype UpdateProductDto = UpdateProductDto(
    title: Option<string>,
    description: Option<string>,
    slug: Option<string>,
    stock: Option<int>,
    sizes: Option<seq<string>>,
    gender: Option<string>,
    tags: Option<seq<string>>,
    images: Option<seq<string>>)

  /** The HTTP exceptions the service throws. */
  datatype HttpError =
    | BadRequest(message: string)
    | InternalServerError(message: string)

  /** An error raised by the database driver. */
  datatype DbError = DbError(code: string, detail: string)

  const NotFound := "Product not found"
  const Unexpected := "Unexpected error, check the logs for more details"
  /** Postgres' `unique_violation`. */
  const UniqueViolationCode := "23505"

  /** `handleDBExceptions`: it never returns; a unique violation becomes a
      400 carrying the driver's detail, anything else a generic 500. */
  function HandleDBExceptions(e: DbError): (r: HttpError)
    ensures r.BadRequest? <==> e.code == UniqueViolationCode
    ensures r.BadRequest? ==> r.message == e.detail
    ensures r.InternalServerError? ==> r.message == Unexpected
  {
    if e.code == UniqueViolationCode then BadRequest(e.detail) else InternalServerError(Unexpected)
  }

  /** `images.map(image => image.url)`. */
  function Urls(images: seq<ProductImage>): (urls: seq<string>)
    ensures |urls| == |images|
    ensures forall i | 0 <= i < |images| :: urls[i] == images[i].url
  {
    seq(|images|, i requires 0 <= i < |images| => images[i].url)
  }

  /** `images.map(image => productImageRepository.create({ url: image }))`:
      one row per url, in order, and flattening gives the urls back. */
  function ToImages(urls: seq<string>): (images: seq<ProductImage>)
    ensures |images| == |urls|
    ensures Urls(images) == urls
  {
    var images := seq(|urls|, i requires 0 <= i < |urls| => ProductImage(urls[i]));
    assert forall i | 0 <= i < |urls| :: Urls(images)[i] == urls[i];
    images
  }

  /** Rows are made of urls alone, so flattening loses nothing. */
  lemma ImagesRoundTrip(images: seq<ProductImage>)
    ensures ToImages(Urls(images)) == images
  {
    var back := ToImages(Urls(images));
    forall i | 0 <= i < |images| ensures back[i] == images[i] {
      assert back[i].url == Urls(back)[i] == Urls(images)[i] == images[i].url;
    }
  }

  /** `{ ...product, images: product.images.map(image => image.url) }` for
      a row loaded with (`withOwner`) or without its eager `user`. */
  function View(p: Product, withOwner: bool): (v: ProductView)
    ensures v.id == p.id && v.title == p.title && v.slug == p.slug
    ensures v.description == p.description && v.stock == p.stock && v.sizes == p.sizes
    ensures v.gender == p.gender && v.tags == p.tags
    ensures Urls(p.images) == v.images
    ensures withOwner ==> v.user == Some(p.user)
    ensures !withOwner ==> v.user.None?
  {
    ProductView(p.id, p.title, p.description, p.slug, p.stock, p.sizes,
                p.gender, p.tags, Urls(p.images), if withOwner then Some(p.user) else None)
  }

  /** The state the unique constraints and the hooks keep: no two rows share
      an id, a title or a slug, and every slug is in normal form. */
  ghost predicate Keyed(store: seq<Product>) {
    && (forall i, j | 0 <= i < j < |store| ::
          && store[i].id != store[j].id
          && store[i].title != store[j].title
          && store[i].slug != store[j].slug)
    && (forall i | 0 <= i < |store| :: IsNormalSlug(store[i].slug))
  }

  function Min(a: int, b: int): int {
    if a <= b then a else b
  }

  /** `findAll`: `limit` defaults to 10 and `offset` to 0; the rows from
      `offset` on, at most `limit` of them, with images flattened. The
      pagination body only lets a positive `limit` through. */
  function FindAll(store: seq<Product>, limit: Option<nat>, offset: Option<nat>): (r: seq<ProductView>)
    requires limit.Some? ==> limit.value > 0
    ensures |r| <= limit.GetOr(10)
    ensures offset.GetOr(0) >= |store| ==> r == []
    ensures offset.GetOr(0) < |store| ==> |r| == Min(limit.GetOr(10), |store| - offset.GetOr(0))
    ensures forall i | 0 <= i < |r| ::
      offset.GetOr(0) + i < |store| && r[i] == View(store[offset.GetOr(0) + i], true)
  {
    var take := limit.GetOr(10);
    var skip := offset.GetOr(0);
    var window := if skip >= |store| then [] else store[skip..Min(skip + take, |store|)];
    seq(|window|, i requires 0 <= i < |window| => View(window[i], true))
  }

  /** Two consecutive pages of `limit` rows are the page of twice that
      size: paging skips no row and repeats none. */
  lemma {:induction false} ConsecutivePages(store: seq<Product>, limit: nat, offset: nat)
    requires limit > 0
    ensures FindAll(store, Some(limit), Some(offset)) + FindAll(store, Some(limit), Some(offset + limit))
         == FindAll(store, Some(2 * limit), Some(offset))
  {
    var a := FindAll(store, Some(limit), Some(offset));
    var b := FindAll(store, Some(limit), Some(offset + limit));
    var c := FindAll(store, Some(2 * limit), Some(offset));
    assert |a + b| == |c|;
    forall i | 0 <= i < |c| ensures (a + b)[i] == c[i] {
      if i >= |a| {
        assert (a + b)[i] == b[i - |a|];
        assert offset + limit + (i - |a|) == offset + i;
      }
    }
  }

  /** The lookup rule of `findOne`: a UUID term is compared with the id and
      nothing else; any other term matches a product whose upper-cased title
      equals the upper-cased term, or whose slug equals the lower-cased
      term. */
  predicate Matches(p: Product, term: string, isUuid: string -> bool)
    ensures !isUuid(term) ==>
      (Matches(p, term, isUuid) <==> ToLower(p.title) == ToLower(term) || p.slug == ToLower(term))
  {
    UpperEqIffLowerEq(p.title, term);
    if isUuid(term) then p.id == term
    else ToUpper(p.title) == ToUpper(term) || p.slug == ToLower(term)
  }

  /** `findOne(term)`: the first row, in row order, the term matches;
      `Product not found` when there is none. */
  function FindOne(store: seq<Product>, term: string, isUuid: string -> bool): (r: Result<Product, HttpError>)
    ensures r.Err? <==> forall i | 0 <= i < |store| :: !Matches(store[i], term, isUuid)
    ensures r.Err? ==> r.error == BadRequest(NotFound)
    ensures r.Ok? ==> exists i | 0 <= i < |store| ::
      && store[i] == r.value
      && Matches(store[i], term, isUuid)
      && forall j | 0 <= j < i :: !Matches(store[j], term, isUuid)
  {
    match Seqs.FirstIndex(store, (p: Product) => Matches(p, term, isUuid))
    case None => Err(BadRequest(NotFound))
    case Some(i) => Ok(store[i])
  }

  /** `findOnePlain(term)`: `findOne` with the images flattened. */
  function FindOnePlain(store: seq<Product>, term: string, isUuid: string -> bool): (r: Result<ProductView, HttpError>)
    ensures r.Err? <==> FindOne(store, term, isUuid).Err?
    ensures r.Err? ==> r.error == BadRequest(NotFound)
    ensures r.Ok? ==> r.value == View(FindOne(store, term, isUuid).value, isUuid(term))
    ensures r.Ok? ==> r.value.images == Urls(FindOne(store, term, isUuid).value.images)
    ensures r.Ok? ==> (r.value.user.Some? <==> isUuid(term))
  {
    match FindOne(store, term, isUuid)
    case Err(e) => Err(e)
    case Ok(p) => Ok(View(p, isUuid(term)))
  }

  /** Terms that are not UUIDs and agree up to case find the same product:
      comparing upper-cased titles and lower-cased slugs both ignore case. */
  lemma FindOneIgnoresCase(store: seq<Product>, a: string, b: string, isUuid: string -> bool)
    requires !isUuid(a) && !isUuid(b)
    requires ToLower(a) == ToLower(b)
    ensures FindOne(store, a, isUuid) == FindOne(store, b, isUuid)
  {
    UpperEqIffLowerEq(a, b);
    Seqs.FirstIndexAgrees(store, (p: Product) => Matches(p, a, isUuid), (p: Product) => Matches(p, b, isUuid));
  }

  /** In a keyed table a UUID term finds exactly the row with that id. */
  lemma FindOneById(store: seq<Product>, k: nat, isUuid: string -> bool)
    requires Keyed(store)
    requires k < |store| && isUuid(store[k].id)
    ensures FindOne(store, store[k].id, isUuid) == Ok(store[k])
  {
    var r := FindOne(store, store[k].id, isUuid);
    assert Matches(store[k], store[k].id, isUuid);
  }

  /** Looking a product up by its own slug (one that does not read as a
      UUID) finds a row: that product, unless an earlier row's title equals
      the slug up to case. When no title does, it is exactly that product. */
  lemma FindOneBySlug(store: seq<Product>, k: nat, isUuid: string -> bool)
    requires Keyed(store)
    requires k < |store| && !isUuid(store[k].slug)
    ensures FindOne(store, store[k].slug, isUuid).Ok?
    ensures
      var found := FindOne(store, store[k].slug, isUuid).value;
      found == store[k] || ToUpper(found.title) == ToUpper(store[k].slug)
    ensures (forall i | 0 <= i < |store| :: ToUpper(store[i].title) != ToUpper(store[k].slug)) ==>
      FindOne(store, store[k].slug, isUuid) == Ok(store[k])
  {
    var slug := store[k].slug;
    LowerFixesLower(slug);
    assert Matches(store[k], slug, isUuid);
    var found := FindOne(store, slug, isUuid).value;
    var i :| 0 <= i < |store| && store[i] == found && Matches(store[i], slug, isUuid);
    if ToUpper(found.title) != ToUpper(slug) {
      assert store[i].slug == slug;
      assert i == k;
    }
  }

  /** Postgres' detail text for a duplicate key. */
  function KeyExists(column: string, value: string): string {
    "Key (" + column + ")=(" + value + ") already exists."
  }

  /** Another row (a different id) already has `p`'s title. */
  predicate TitleTaken(store: seq<Product>, p: Product) {
    exists i | 0 <= i < |store| :: store[i].id != p.id && store[i].title == p.title
  }

  /** Another row (a different id) already has `p`'s slug. */
  predicate SlugTaken(store: seq<Product>, p: Product) {
    exists i | 0 <= i < |store| :: store[i].id != p.id && store[i].slug == p.slug
  }

  /** The unique constraints on `title` and `slug` when `p` is written to
      the table: the error the driver raises, if any; `title` is checked
      first. */
  function UniqueViolation(store: seq<Product>, p: Product): (r: Option<DbError>)
    ensures r.None? <==> forall i | 0 <= i < |store| && store[i].id != p.id ::
      store[i].title != p.title && store[i].slug != p.slug
    ensures r.Some? ==> r.value.code == UniqueViolationCode
    ensures TitleTaken(store, p) ==> r == Some(DbError(UniqueViolationCode, KeyExists("title", p.title)))
    ensures !TitleTaken(store, p) && SlugTaken(store, p) ==>
      r == Some(DbError(UniqueViolationCode, KeyExists("slug", p.slug)))
  {
    if TitleTaken(store, p) then Some(DbError(UniqueViolationCode, KeyExists("title", p.title)))
    else if SlugTaken(store, p) then Some(DbError(UniqueViolationCode, KeyExists("slug", p.slug)))
    else None
  }

  /** The entity `create` builds and the insert hook normalises: `images`
      defaults to none, `stock` and `tags` take their column defaults. */
  function NewProduct(dto: CreateProductDto, user: User, newId: string): (p: Product)
    ensures p.id == newId && p.user == user && p.title == dto.title
    ensures p.description == dto.description && p.sizes == dto.sizes && p.gender == dto.gender
    ensures p.stock == dto.stock.GetOr(0) && p.tags == dto.tags.GetOr([])
    ensures Urls(p.images) == dto.images.GetOr([])
    ensures IsNormalSlug(p.slug)
    ensures dto.slug.None? || dto.slug.value == [] ==> p.slug == NormalizeSlug(dto.title)
    ensures dto.slug.Some? && dto.slug.value != [] ==> p.slug == NormalizeSlug(dto.slug.value)
  {
    Product(newId, dto.title, dto.description, CheckSlugInsert(dto.title, dto.slug),
            dto.stock.GetOr(0), dto.sizes, dto.gender, dto.tags.GetOr([]),
            ToImages(dto.images.GetOr([])), user)
  }

  /** A successful `create`: the table afterwards and the response. */
  datatype Created = Created(store: seq<Product>, response: ProductView)

  /** `create(dto, user)`: insert a new row owned by `user` under the id the
      database generates (`newId`), answering with the saved product and the
      url list it was given. `fault` is a driver failure other than a unique
      violation; every failure leaves the table as it was. */
  function Create(store: seq<Product>, dto: CreateProductDto, user: User, newId: string,
                  fault: Option<DbError>): (r: Result<Created, HttpError>)
    ensures fault.Some? ==> r == Err(HandleDBExceptions(fault.value))
    ensures fault.None? && UniqueViolation(store, NewProduct(dto, user, newId)).Some? ==>
      r == Err(BadRequest(UniqueViolation(store, NewProduct(dto, user, newId)).value.detail))
    ensures r.Ok? <==> fault.None? && UniqueViolation(store, NewProduct(dto, user, newId)).None?
    ensures r.Ok? ==>
      && |r.value.store| == |store| + 1
      && r.value.store[..|store|] == store
      && r.value.store[|store|] == NewProduct(dto, user, newId)
      && r.value.response == View(NewProduct(dto, user, newId), true)
      && r.value.response.images == dto.images.GetOr([])
  {
    var p := NewProduct(dto, user, newId);
    if fault.Some? then Err(HandleDBExceptions(fault.value))
    else match UniqueViolation(store, p)
      case Some(e) => Err(HandleDBExceptions(e))
      case None =>
        assert (store + [p])[..|store|] == store;
        Ok(Created(store + [p], View(p, true)))
  }

  /** A `create` whose title another row already has fails with Postgres'
      duplicate-key detail for `title`, and the table is untouched. */
  lemma DuplicateTitleRejected(store: seq<Product>, dto: CreateProductDto, user: User,
                               newId: string, k: nat)
    requires forall i | 0 <= i < |store| :: store[i].id != newId
    requires k < |store| && store[k].title == dto.title
    ensures Create(store, dto, user, newId, None) == Err(BadRequest(KeyExists("title", dto.title)))
  {
    var p := NewProduct(dto, user, newId);
    assert TitleTaken(store, p) by {
      assert store[k].id != p.id && store[k].title == p.title;
    }
  }

  /** A `create` with a fresh id, no clash and no driver fault succeeds and
      keeps the table keyed. */
  lemma {:induction false} CreateKeepsKeyed(store: seq<Product>, dto: CreateProductDto, user: User,
                                            newId: string)
    requires Keyed(store)
    requires forall i | 0 <= i < |store| :: store[i].id != newId
    requires forall i | 0 <= i < |store| ::
      store[i].title != dto.title && store[i].slug != CheckSlugInsert(dto.title, dto.slug)
    ensures Create(store, dto, user, newId, None).Ok?
    ensures Keyed(Create(store, dto, user, newId, None).value.store)
  {
    var after := Create(store, dto, user, newId, None).value.store;
    var p := NewProduct(dto, user, newId);
    assert after == store + [p];
    forall i, j | 0 <= i < j < |after|
      ensures after[i].id != after[j].id && after[i].title != after[j].title && after[i].slug != after[j].slug
    {
      if j == |store| {
        assert after[j] == p && after[i] == store[i];
      } else {
        assert after[i] == store[i] && after[j] == store[j];
      }
    }
  }

  /** Right after a `create`, looking the new id up answers with exactly what
      `create` answered. */
  lemma CreateThenFind(store: seq<Product>, dto: CreateProductDto, user: User, newId: string,
                       isUuid: string -> bool)
    requires Keyed(store)
    requires forall i | 0 <= i < |store| :: store[i].id != newId
    requires isUuid(newId)
    requires forall i | 0 <= i < |store| ::
      store[i].title != dto.title && store[i].slug != CheckSlugInsert(dto.title, dto.slug)
    ensures Create(store, dto, user, newId, None).Ok?
    ensures
      var c := Create(store, dto, user, newId, None).value;
      FindOnePlain(c.store, newId, isUuid) == Ok(c.response)
  {
    var c := Create(store, dto, user, newId, None).value;
    CreateKeepsKeyed(store, dto, user, newId);
    FindOneById(c.store, |store|, isUuid);
  }

  /** `preload({ id, ...toUpdate })` followed by the image and owner
      assignments and the update hook: present members replace the stored
      ones; images are replaced by the given urls when `images` is present
      (an empty list included) and kept otherwise; the caller becomes the
      owner. */
  function Edit(p: Product, dto: UpdateProductDto, user: User): (e: Product)
    ensures e.id == p.id && e.user == user
    ensures dto.images.Some? ==> Urls(e.images) == dto.images.value
    ensures dto.images.None? ==> e.images == p.images
    ensures IsNormalSlug(e.slug)
    ensures dto.slug.Some? ==> e.slug == CheckSlugUpdate(dto.slug.value)
    ensures dto.slug.None? ==> e.slug == CheckSlugUpdate(p.slug)
    ensures dto.slug.None? && IsNormalSlug(p.slug) ==> e.slug == p.slug
    ensures e.title == (if dto.title.Some? then dto.title.value else p.title)
    ensures e.description == (if dto.description.Some? then dto.description else p.description)
    ensures e.stock == (if dto.stock.Some? then dto.stock.value else p.stock)
    ensures e.sizes == (if dto.sizes.Some? then dto.sizes.value else p.sizes)
    ensures e.gender == (if dto.gender.Some? then dto.gender.value else p.gender)
    ensures e.tags == (if dto.tags.Some? then dto.tags.value else p.tags)
  {
    Product(
      p.id,
      dto.title.GetOr(p.title),
      if dto.description.Some? then dto.description else p.description,
      CheckSlugUpdate(dto.slug.GetOr(p.slug)),
      dto.stock.GetOr(p.stock),
      dto.sizes.GetOr(p.sizes),
      dto.gender.GetOr(p.gender),
      dto.tags.GetOr(p.tags),
      if dto.images.Some? then ToImages(dto.images.value) else p.images,
      user)
  }

  /** `preload`'s primary-key lookup: the row holding `id`, if any. */
  function RowOf(store: seq<Product>, id: string): (k: Option<nat>)
    ensures k.None? <==> forall i | 0 <= i < |store| :: store[i].id != id
    ensures k.Some? ==> k.value < |store| && store[k.value].id == id
  {
    Seqs.FirstIndex(store, (p: Product) => p.id == id)
  }

  /** A committed `update`: the table afterwards and the `findOnePlain(id)`
      answer computed from it. */
  datatype Updated = Updated(store: seq<Product>, response: Result<ProductView, HttpError>)

  /** The transaction of `update`: write `e` over row `k`. A driver failure or
      a unique violation rolls back and leaves the table as it was; after the
      commit the answer is `findOnePlain(id)` on the new table. */
  function SaveEdited(store: seq<Product>, k: nat, e: Product, id: string,
                      isUuid: string -> bool, fault: Option<DbError>): (r: Result<Updated, HttpError>)
    requires k < |store|
    ensures fault.Some? ==> r == Err(HandleDBExceptions(fault.value))
    ensures fault.None? && UniqueViolation(store, e).Some? ==>
      r == Err(BadRequest(UniqueViolation(store, e).value.detail))
    ensures r.Ok? <==> fault.None? && UniqueViolation(store, e).None?
    ensures r.Ok? ==>
      && |r.value.store| == |store|
      && r.value.store[k] == e
      && (forall i | 0 <= i < |store| && i != k :: r.value.store[i] == store[i])
      && r.value.response == FindOnePlain(r.value.store, id, isUuid)
  {
    if fault.Some? then Err(HandleDBExceptions(fault.value))
    else match UniqueViolation(store, e)
      case Some(err) => Err(HandleDBExceptions(err))
      case None =>
        var after := store[k := e];
        Ok(Updated(after, FindOnePlain(after, id, isUuid)))
  }

  /** `update(id, dto, user)`: an unknown id is `Product not found`;
      otherwise the stored row, edited, goes through the transaction. */
  function Update(store: seq<Product>, id: string, dto: UpdateProductDto, user: User,
                  isUuid: string -> bool, fault: Option<DbError>): (r: Result<Updated, HttpError>)
    ensures RowOf(store, id).None? ==> r == Err(BadRequest(NotFound))
    ensures RowOf(store, id).Some? ==>
      var k := RowOf(store, id).value;
      r == SaveEdited(store, k, Edit(store[k], dto, user), id, isUuid, fault)
  {
    match RowOf(store, id)
    case None => Err(BadRequest(NotFound))
    case Some(k) => SaveEdited(store, k, Edit(store[k], dto, user), id, isUuid, fault)
  }

  /** An `update` of a present row with no clash and no driver fault
      succeeds and keeps the table keyed. */
  lemma {:induction false} UpdateKeepsKeyed(store: seq<Product>, id: string, dto: UpdateProductDto,
                                            user: User, isUuid: string -> bool)
    requires Keyed(store)
    requires RowOf(store, id).Some?
    requires UniqueViolation(store, Edit(store[RowOf(store, id).value], dto, user)).None?
    ensures Update(store, id, dto, user, isUuid, None).Ok?
    ensures Keyed(Update(store, id, dto, user, isUuid, None).value.store)
  {
    var after := Update(store, id, dto, user, isUuid, None).value.store;
    var k := RowOf(store, id).value;
    var e := Edit(store[k], dto, user);
    forall i, j | 0 <= i < j < |after|
      ensures after[i].id != after[j].id && after[i].title != after[j].title && after[i].slug != after[j].slug
    {
      if i == k {
        assert store[j].id != e.id && after[j] == store[j];
      } else if j == k {
        assert store[i].id != e.id && after[i] == store[i];
      } else {
        assert after[i] == store[i] && after[j] == store[j];
      }
    }
  }

  /** With a UUID id of a present row, no clash and no driver fault, `update`
      succeeds and answers with the edited row, owner included, its images
      flattened: the given urls when `images` was sent, the stored ones
      otherwise. */
  lemma UpdateAnswersEdited(store: seq<Product>, id: string, dto: UpdateProductDto, user: User,
                            isUuid: string -> bool)
    requires Keyed(store) && isUuid(id)
    requires RowOf(store, id).Some?
    requires UniqueViolation(store, Edit(store[RowOf(store, id).value], dto, user)).None?
    ensures Update(store, id, dto, user, isUuid, None).Ok?
    ensures
      var k := RowOf(store, id).value;
      var u := Update(store, id, dto, user, isUuid, None).value;
      && u.response == Ok(View(Edit(store[k], dto, user), true))
      && (dto.images.Some? ==> u.response.value.images == dto.images.value)
      && (dto.images.None? ==> u.response.value.images == Urls(store[k].images))
  {
    var u := Update(store, id, dto, user, isUuid, None).value;
    var k := RowOf(store, id).value;
    UpdateKeepsKeyed(store, id, dto, user, isUuid);
    FindOneById(u.store, k, isUuid);
  }

  /** `remove(term)`: find the product as `findOne` does and delete that
      row; the other rows keep their order. */
  function Remove(store: seq<Product>, term: string, isUuid: string -> bool): (r: Result<seq<Product>, HttpError>)
    ensures r.Err? <==> FindOne(store, term, isUuid).Err?
    ensures r.Err? ==> r.error == BadRequest(NotFound)
    ensures r.Ok? ==> exists i | 0 <= i < |store| ::
      && store[i] == FindOne(store, term, isUuid).value
      && r.value == store[..i] + store[i + 1..]
  {
    match Seqs.FirstIndex(store, (p: Product) => Matches(p, term, isUuid))
    case None => Err(BadRequest(NotFound))
    case Some(i) => Ok(store[..i] + store[i + 1..])
  }
}
