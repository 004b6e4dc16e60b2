/** Products and articles with their categories and tags
    (app/crud/crud_product.py, app/crud/crud_article.py over
    app/models/product.py and app/models/article.py). */
module Catalog {
  import opened Common

  /** A row of `categories` or of `tags`: both tables have an id, a name and
      a unique slug. */
  datatype Term = Term(id: nat, name: string, slug: string)

  /** A row of `products` without its floating-point and free-form columns. */
  datatype Product = Product(
    id: nat,
    title: string,
    slug: string,
    language: string,
    status: string,
    isFeatured: bool,
    categories: seq<Term>,
    tags: seq<Term>)

  /** `ProductCreate`; ids left out of the request are the empty list. */
  datatype ProductCreate = ProductCreate(
    title: string,
    slug: string,
    language: string,
    status: string,
    isFeatured: bool,
    categoryIds: seq<int>,
    tagIds: seq<int>)

  /** A row of `articles`. */
  datatype Article = Article(
    id: nat,
    title: string,
    slug: string,
    content: Option<string>,
    status: string,
    authorId: int,
    categories: seq<Term>,
    tags: seq<Term>)

  /** `ArticleCreate`. */
  datatype ArticleCreate = ArticleCreate(
    title: string,
    slug: string,
    content: Option<string>,
    status: string,
    categoryIds: seq<int>,
    tagIds: seq<int>)

  /** `ArticleUpdate`: every field may be left out. */
  datatype ArticleUpdate = ArticleUpdate(
    title: Patch<string>,
    slug: Patch<string>,
    content: Patch<Option<string>>,
    status: Patch<string>)

  // ---------------------------------------------------------------------
  // Lookups
  // ---------------------------------------------------------------------

  /** `db.query(Category/Tag).filter(id == termId).first()`. */
  function TermById(table: seq<Term>, termId: int): (r: Option<Term>)
    ensures r.Some? ==> r.value in table && r.value.id == termId
    ensures r.None? <==> forall j :: 0 <= j < |table| ==> table[j].id != termId
  {
    First(table, (t: Term) => t.id == termId)
  }

  function ProductById(products: seq<Product>, productId: int): (r: Option<Product>)
    ensures r.Some? ==> r.value in products && r.value.id == productId
    ensures r.None? <==> forall j :: 0 <= j < |products| ==> products[j].id != productId
  {
    First(products, (p: Product) => p.id == productId)
  }

  function ProductBySlug(products: seq<Product>, slug: string): (r: Option<Product>)
    ensures r.Some? ==> r.value in products && r.value.slug == slug
    ensures r.None? <==> forall j :: 0 <= j < |products| ==> products[j].slug != slug
  {
    First(products, (p: Product) => p.slug == slug)
  }

  /** `get_product` as written: an id wins over a slug; the slug branch calls
      `.frist()`, which the query object does not have; with neither the
      result is None. */
  function GetProduct(products: seq<Product>, productId: Option<int>, slug: Option<string>): (r: Result<Option<Product>>)
    ensures r.Err? <==> productId.None? && slug.Some?
    ensures r.Err? ==> r.error == AttributeError("frist")
    ensures productId.Some? && r.Ok? && r.value.Some? ==> r.value.value in products && r.value.value.id == productId.value
    ensures productId.None? && slug.None? ==> r == Ok(None)
  {
    if productId.Some? then Ok(ProductById(products, productId.value))
    else if slug.Some? then Err(AttributeError("frist"))
    else Ok(None)
  }

  /** `get_product` with `.first()` on the slug branch, as evidently meant. */
  function GetProductIntended(products: seq<Product>, productId: Option<int>, slug: Option<string>): (r: Option<Product>)
    ensures productId.Some? ==>
      (r.Some? <==> exists j :: 0 <= j < |products| && products[j].id == productId.value)
    ensures productId.Some? && r.Some? ==> r.value in products && r.value.id == productId.value
    ensures productId.None? && slug.Some? ==>
      (r.Some? <==> exists j :: 0 <= j < |products| && products[j].slug == slug.value)
    ensures productId.None? && slug.Some? && r.Some? ==> r.value in products && r.value.slug == slug.value
    ensures productId.None? && slug.None? ==> r.None?
  {
    if productId.Some? then ProductById(products, productId.value)
    else if slug.Some? then ProductBySlug(products, slug.value)
    else None
  }

  /** A given id decides the lookup whatever slug comes with it. */
  lemma IdTakesPrecedence(products: seq<Product>, productId: int, s1: Option<string>, s2: Option<string>)
    ensures GetProduct(products, Some(productId), s1) == GetProduct(products, Some(productId), s2)
    ensures GetProduct(products, Some(productId), s1).Ok?
    ensures GetProductIntended(products, Some(productId), s1) == GetProductIntended(products, Some(productId), s2)
  {
  }

  /** Neither an id nor a slug: None. */
  lemma NoKeyGivesNone(products: seq<Product>)
    ensures GetProduct(products, None, None) == Ok(None)
    ensures GetProductIntended(products, None, None) == None
  {
  }

  /** The slug branch as written raises even for a slug that is in the table. */
  lemma SlugLookupAlwaysRaises(products: seq<Product>, i: nat)
    requires i < |products|
    ensures GetProduct(products, None, Some(products[i].slug)) == Err(AttributeError("frist"))
    ensures GetProductIntended(products, None, Some(products[i].slug)).Some?
  {
  }

  /** On the id branch, the only one the handlers use, the two readings agree. */
  lemma GetProductAgreesById(products: seq<Product>, productId: int, slug: Option<string>)
    ensures GetProduct(products, Some(productId), slug) == Ok(GetProductIntended(products, Some(productId), slug))
  {
  }

  /** `get_products`: rows `[skip, skip + limit)`. */
  function GetProducts(products: seq<Product>, skip: nat, limit: nat): (r: seq<Product>)
    ensures |r| <= limit
    ensures forall k :: 0 <= k < |r| ==> skip + k < |products| && r[k] == products[skip + k]
    ensures skip + limit <= |products| ==> |r| == limit
  {
    Window(products, skip, limit)
  }

  /** `get_article`: the first article whose slug is exactly `slug`. */
  function GetArticle(articles: seq<Article>, slug: string): (r: Option<Article>)
    ensures r.Some? ==> (r.value.slug == slug
      && exists i :: (0 <= i < |articles| && articles[i] == r.value
         && forall j :: 0 <= j < i ==> articles[j].slug != slug))
    ensures r.None? <==> forall j :: 0 <= j < |articles| ==> articles[j].slug != slug
  {
    First(articles, (a: Article) => a.slug == slug)
  }

  /** `get_articles`: rows `[skip, skip + limit)`. */
  function GetArticles(articles: seq<Article>, skip: nat, limit: nat): (r: seq<Article>)
    ensures |r| <= limit
    ensures forall k :: 0 <= k < |r| ==> skip + k < |articles| && r[k] == articles[skip + k]
    ensures skip + limit <= |articles| ==> |r| == limit
  {
    Window(articles, skip, limit)
  }

  /** Index of the article with id `articleId`. */
  function ArticleIndex(articles: seq<Article>, articleId: nat): (r: Option<nat>)
    ensures r.Some? ==> (r.value < |articles| && articles[r.value].id == articleId)
    ensures r.None? ==> forall j :: 0 <= j < |articles| ==> articles[j].id != articleId
  {
    FirstIndex(articles, (a: Article) => a.id == articleId)
  }

  // ---------------------------------------------------------------------
  // Attaching categories and tags
  // ---------------------------------------------------------------------

  /** Reference reading of the attach loops: for each id in order, the row
      with that id if there is one; unknown ids are skipped. */
  function Existing(table: seq<Term>, ids: seq<int>): seq<Term> {
    if |ids| == 0 then []
    else
      Existing(table, ids[..|ids| - 1])
        + match TermById(table, ids[|ids| - 1]) { case Some(t) => [t] case None => [] }
  }

  /** Only rows of the table, and only ones whose id was asked for. */
  lemma {:induction false} ExistingIsSound(table: seq<Term>, ids: seq<int>)
    ensures |Existing(table, ids)| <= |ids|
    ensures forall k :: 0 <= k < |Existing(table, ids)| ==>
      Existing(table, ids)[k] in table && Existing(table, ids)[k].id in ids
  {
    if |ids| > 0 {
      var front := ids[..|ids| - 1];
      ExistingIsSound(table, front);
      forall k | 0 <= k < |Existing(table, front)| ensures Existing(table, front)[k].id in ids {
        var i :| 0 <= i < |front| && front[i] == Existing(table, front)[k].id;
        assert ids[i] == front[i];
      }
    }
  }

  /** When every id names a row, the attached list follows the ids one for one. */
  lemma {:induction false} ExistingIsComplete(table: seq<Term>, ids: seq<int>)
    requires forall k :: 0 <= k < |ids| ==> TermById(table, ids[k]).Some?
    ensures |Existing(table, ids)| == |ids|
    ensures forall k :: 0 <= k < |ids| ==> Existing(table, ids)[k].id == ids[k]
  {
    if |ids| > 0 {
      var front := ids[..|ids| - 1];
      assert forall k :: 0 <= k < |front| ==> front[k] == ids[k];
      ExistingIsComplete(table, front);
      var t := TermById(table, ids[|ids| - 1]).value;
      assert Existing(table, ids) == Existing(table, front) + [t];
    }
  }

  /** Attaching a concatenation attaches each part, in order. */
  lemma {:induction false} ExistingOfConcat(table: seq<Term>, a: seq<int>, b: seq<int>)
    ensures Existing(table, a + b) == Existing(table, a) + Existing(table, b)
    decreases |b|
  {
    if |b| == 0 {
      assert a + b == a;
    } else {
      var b' := b[..|b| - 1];
      assert (a + b)[..|a + b| - 1] == a + b';
      ExistingOfConcat(table, a, b');
    }
  }

  /** An id with no row changes nothing. */
  lemma ExistingSkipsUnknown(table: seq<Term>, ids: seq<int>, unknown: int)
    requires TermById(table, unknown).None?
    ensures Existing(table, ids + [unknown]) == Existing(table, ids)
  {
    assert (ids + [unknown])[..|ids|] == ids;
  }

  /** Whether two attached rows share an id: the flush would then insert
      the same row of an association table twice, which its composite
      primary key refuses. */
  predicate RepeatsId(ts: seq<Term>) {
    exists i, j :: 0 <= i < j < |ts| && ts[i].id == ts[j].id
  }

  /** Distinct ids in the request never attach a row twice. */
  lemma {:induction false} DistinctIdsAttachOnce(table: seq<Term>, ids: seq<int>)
    requires forall i, j :: 0 <= i < j < |ids| ==> ids[i] != ids[j]
    ensures !RepeatsId(Existing(table, ids))
  {
    if |ids| > 0 {
      var front := ids[..|ids| - 1];
      var last := ids[|ids| - 1];
      assert forall i, j :: 0 <= i < j < |front| ==> front[i] != front[j] by {
        forall i, j | 0 <= i < j < |front| ensures front[i] != front[j] {
          assert front[i] == ids[i] && front[j] == ids[j];
        }
      }
      DistinctIdsAttachOnce(table, front);
      ExistingIsSound(table, front);
      var ef := Existing(table, front);
      match TermById(table, last)
      case None =>
        assert Existing(table, ids) == ef;
      case Some(t) =>
        var e := Existing(table, ids);
        assert e == ef + [t];
        forall i, j | 0 <= i < j < |e| ensures e[i].id != e[j].id {
          if j < |ef| {
            assert e[i] == ef[i] && e[j] == ef[j];
          } else {
            assert e[i] == ef[i] && e[j] == t;
            var k :| 0 <= k < |front| && front[k] == ef[i].id;
            assert ids[k] == front[k];
          }
        }
    }
  }

  /** An id asked for twice, when it names a row, attaches that row twice. */
  lemma RepeatedIdAttachesTwice(table: seq<Term>, t: Term)
    requires TermById(table, t.id) == Some(t)
    ensures Existing(table, [t.id, t.id]) == [t, t]
    ensures RepeatsId(Existing(table, [t.id, t.id]))
  {
    assert [t.id][..0] == [];
    assert Existing(table, [t.id]) == [t];
    assert [t.id, t.id][..1] == [t.id];
    assert Existing(table, [t.id, t.id]) == Existing(table, [t.id]) + [t];
    var e := Existing(table, [t.id, t.id]);
    assert e[0].id == e[1].id;
  }

  predicate SlugsDistinct(products: seq<Product>) {
    forall i, j :: 0 <= i < j < |products| ==> products[i].slug != products[j].slug
  }

  predicate ArticleSlugsDistinct(articles: seq<Article>) {
    forall i, j :: 0 <= i < j < |articles| ==> articles[i].slug != articles[j].slug
  }

  /** The row `create_product` builds: the columns of the request, and the
      existing categories and tags among its ids. */
  function NewProduct(productId: nat, p: ProductCreate, categories: seq<Term>, tags: seq<Term>): Product {
    Product(productId, p.title, p.slug, p.language, p.status, p.isFeatured,
            Existing(categories, p.categoryIds), Existing(tags, p.tagIds))
  }

  /** The row `create_article` builds, written by `userId`. */
  function NewArticle(articleId: nat, a: ArticleCreate, userId: int, categories: seq<Term>, tags: seq<Term>): Article {
    Article(articleId, a.title, a.slug, a.content, a.status, userId,
            Existing(categories, a.categoryIds), Existing(tags, a.tagIds))
  }

  /** The in-memory catalogue: products, articles and the category and tag
      tables they point to. */
  class Catalog {
    var products: seq<Product>
    var articles: seq<Article>
    var categories: seq<Term>
    var tags: seq<Term>
    var nextProductId: nat
    var nextArticleId: nat

    /** Slugs are unique (the unique indexes); ids are below the counters. */
    ghost predicate Valid()
      reads this
    {
      SlugsDistinct(products) && ArticleSlugsDistinct(articles)
      && (forall i :: 0 <= i < |products| ==> products[i].id < nextProductId)
      && (forall i :: 0 <= i < |articles| ==> articles[i].id < nextArticleId)
    }

    constructor (categories: seq<Term>, tags: seq<Term>)
      ensures this.categories == categories && this.tags == tags
      ensures products == [] && articles == [] && Valid()
    {
      this.categories := categories;
      this.tags := tags;
      products := [];
      articles := [];
      nextProductId := 1;
      nextArticleId := 1;
    }

    /** One attach loop: look each id up and append the row when it exists. */
    static method Attach(table: seq<Term>, ids: seq<int>) returns (attached: seq<Term>)
      ensures attached == Existing(table, ids)
    {
      attached := [];
      var i := 0;
      while i < |ids|
        invariant 0 <= i <= |ids|
        invariant attached == Existing(table, ids[..i])
      {
        assert ids[..i + 1][..i] == ids[..i];
        var found := TermById(table, ids[i]);
        if found.Some? {
          attached := attached + [found.value];
        }
        i := i + 1;
      }
      assert ids[..i] == ids;
    }

    /** `create_product`: build the row, attach categories then tags, commit;
        a slug already in use, or a category or tag attached twice (an id
        repeated in the request), is refused at commit and nothing is
        stored. */
    method CreateProduct(p: ProductCreate) returns (r: Result<Product>)
      requires Valid()
      modifies this
      ensures Valid()
      ensures categories == old(categories) && tags == old(tags) && articles == old(articles)
      ensures nextArticleId == old(nextArticleId)
      ensures ProductBySlug(old(products), p.slug).Some? ==>
        r == Err(IntegrityError("slug")) && products == old(products) && nextProductId == old(nextProductId)
      ensures ProductBySlug(old(products), p.slug).None? && RepeatsId(Existing(categories, p.categoryIds)) ==>
        r == Err(IntegrityError("product_categories")) && products == old(products) && nextProductId == old(nextProductId)
      ensures (ProductBySlug(old(products), p.slug).None? && !RepeatsId(Existing(categories, p.categoryIds))
        && RepeatsId(Existing(tags, p.tagIds))) ==>
        r == Err(IntegrityError("product_tags")) && products == old(products) && nextProductId == old(nextProductId)
      ensures (ProductBySlug(old(products), p.slug).None? && !RepeatsId(Existing(categories, p.categoryIds))
        && !RepeatsId(Existing(tags, p.tagIds))) ==>
        r == Ok(NewProduct(old(nextProductId), p, categories, tags))
        && products == old(products) + [r.value] && nextProductId == old(nextProductId) + 1
    {
      var cats := Attach(categories, p.categoryIds);
      var tgs := Attach(tags, p.tagIds);
      var product := Product(nextProductId, p.title, p.slug, p.language, p.status, p.isFeatured, cats, tgs);
      if ProductBySlug(products, p.slug).Some? {
        return Err(IntegrityError("slug"));
      }
      if RepeatsId(cats) {
        return Err(IntegrityError("product_categories"));
      }
      if RepeatsId(tgs) {
        return Err(IntegrityError("product_tags"));
      }
      AppendKeepsSlugsDistinct(products, product);
      products := products + [product];
      nextProductId := nextProductId + 1;
      return Ok(product);
    }

    /** `create_article`: as `create_product`, with `author_id` set to `userId`. */
    method CreateArticle(a: ArticleCreate, userId: int) returns (r: Result<Article>)
      requires Valid()
      modifies this
      ensures Valid()
      ensures categories == old(categories) && tags == old(tags) && products == old(products)
      ensures nextProductId == old(nextProductId)
      ensures GetArticle(old(articles), a.slug).Some? ==>
        r == Err(IntegrityError("slug")) && articles == old(articles) && nextArticleId == old(nextArticleId)
      ensures GetArticle(old(articles), a.slug).None? && RepeatsId(Existing(categories, a.categoryIds)) ==>
        r == Err(IntegrityError("article_categories")) && articles == old(articles) && nextArticleId == old(nextArticleId)
      ensures (GetArticle(old(articles), a.slug).None? && !RepeatsId(Existing(categories, a.categoryIds))
        && RepeatsId(Existing(tags, a.tagIds))) ==>
        r == Err(IntegrityError("article_tags")) && articles == old(articles) && nextArticleId == old(nextArticleId)
      ensures (GetArticle(old(articles), a.slug).None? && !RepeatsId(Existing(categories, a.categoryIds))
        && !RepeatsId(Existing(tags, a.tagIds))) ==>
        r == Ok(NewArticle(old(nextArticleId), a, userId, categories, tags))
        && articles == old(articles) + [r.value] && nextArticleId == old(nextArticleId) + 1
    {
      var cats := Attach(categories, a.categoryIds);
      var tgs := Attach(tags, a.tagIds);
      var article := Article(nextArticleId, a.title, a.slug, a.content, a.status, userId, cats, tgs);
      if GetArticle(articles, a.slug).Some? {
        return Err(IntegrityError("slug"));
      }
      if RepeatsId(cats) {
        return Err(IntegrityError("article_categories"));
      }
      if RepeatsId(tgs) {
        return Err(IntegrityError("article_tags"));
      }
      AppendKeepsArticleSlugsDistinct(articles, article);
      articles := articles + [article];
      nextArticleId := nextArticleId + 1;
      return Ok(article);
    }

    /** `update_article`: it computes the dump of the request and stops; the
        article is not changed and the result is None. */
    method UpdateArticle(articleId: nat, update: ArticleUpdate) returns (r: Option<Article>)
      ensures r.None?
    {
      r := None;
    }
  }

  /** A new product's slug is fresh, so slugs stay distinct. */
  lemma AppendKeepsSlugsDistinct(products: seq<Product>, p: Product)
    requires SlugsDistinct(products) && ProductBySlug(products, p.slug).None?
    ensures SlugsDistinct(products + [p])
  {
    var ps := products + [p];
    forall i, j | 0 <= i < j < |ps| ensures ps[i].slug != ps[j].slug {
      assert ps[i] == products[i];
      if j < |products| {
        assert ps[j] == products[j];
      }
    }
  }

  lemma AppendKeepsArticleSlugsDistinct(articles: seq<Article>, a: Article)
    requires ArticleSlugsDistinct(articles) && GetArticle(articles, a.slug).None?
    ensures ArticleSlugsDistinct(articles + [a])
  {
    var xs := articles + [a];
    forall i, j | 0 <= i < j < |xs| ensures xs[i].slug != xs[j].slug {
      assert xs[i] == articles[i];
      if j < |articles| {
        assert xs[j] == articles[j];
      }
    }
  }
}
