/** The article endpoints (app/api/v1/endpoints/articles.py) over the
    catalogue's article table. */
module Articles {
  import opened Common
  import opened Catalog

  const SLUG_EXISTS: string := "Article with this slug already exixts"
  const ARTICLE_NOT_FOUND: string := "Article not found"
  const UPDATE_FORBIDDEN: string := "Not authorized to update this article"

  /** The query parameters `read_articles` declares and never reads. */
  datatype ArticleFilters = ArticleFilters(
    search: Option<string>,
    status: Option<string>,
    articleType: Option<string>,
    category: Option<string>,
    featured: Option<bool>,
    sortBy: Option<string>,
    sortOrder: Option<string>)

  /** The declared defaults: status "published", newest `published_at` first. */
  const DEFAULT_FILTERS: ArticleFilters :=
    ArticleFilters(None, Some("published"), None, None, None, Some("published_at"), Some("desc"))

  /** `read_articles`: FastAPI refuses `skip < 0` and a `limit` outside
      1..100 before the handler runs; otherwise the window of the table,
      whatever the filters say. */
  function ReadArticles(articles: seq<Article>, skip: int, limit: int, filters: ArticleFilters): (r: Result<seq<Article>>)
    ensures r.Ok? <==> 0 <= skip && 1 <= limit <= 100
    ensures skip < 0 ==> r == Err(RequestValidation("skip"))
    ensures 0 <= skip && !(1 <= limit <= 100) ==> r == Err(RequestValidation("limit"))
    ensures r.Ok? ==> |r.value| <= limit
    ensures r.Ok? ==> forall k :: 0 <= k < |r.value| ==> skip + k < |articles| && r.value[k] == articles[skip + k]
    ensures r.Ok? && skip + limit <= |articles| ==> |r.value| == limit
  {
    if skip < 0 then Err(RequestValidation("skip"))
    else if !(1 <= limit <= 100) then Err(RequestValidation("limit"))
    else Ok(GetArticles(articles, skip, limit))
  }

  /** The search, status, type, category, featured and sort parameters
      change nothing. */
  lemma FiltersAreIgnored(articles: seq<Article>, skip: int, limit: int, f1: ArticleFilters, f2: ArticleFilters)
    ensures ReadArticles(articles, skip, limit, f1) == ReadArticles(articles, skip, limit, f2)
    ensures ReadArticles(articles, skip, limit, f1) == ReadArticles(articles, skip, limit, DEFAULT_FILTERS)
  {
  }

  /** With the default paging a table of at most 100 articles is listed
      whole, in table order, drafts included. */
  lemma DefaultPageListsEverything(articles: seq<Article>, filters: ArticleFilters)
    requires |articles| <= 100
    ensures ReadArticles(articles, 0, 100, filters) == Ok(articles)
  {
    assert articles[0..|articles|] == articles;
  }

  /** The guard of `update_article`: 404 for an unknown slug, then 403 unless
      the caller is a superuser or the author. */
  function UpdateGuard(articles: seq<Article>, caller: Caller, slug: string): Outcome {
    match GetArticle(articles, slug)
    case None => Fail(HttpError(404, ARTICLE_NOT_FOUND))
    case Some(a) =>
      if !caller.isSuperuser && a.authorId != caller.id then Fail(HttpError(403, UPDATE_FORBIDDEN))
      else Pass
  }

  /** The update guard lets in exactly a superuser or the author of the
      article the slug names, and an unknown slug is 404 for everyone. */
  lemma UpdateGuardIff(articles: seq<Article>, caller: Caller, slug: string)
    ensures UpdateGuard(articles, caller, slug) == Pass <==>
      GetArticle(articles, slug).Some?
      && (caller.isSuperuser || GetArticle(articles, slug).value.authorId == caller.id)
    ensures GetArticle(articles, slug).None? ==> UpdateGuard(articles, caller, slug) == Fail(HttpError(404, ARTICLE_NOT_FOUND))
  {
  }

  /** `create_article`: 400 when the slug is taken; otherwise the store's
      create, which refuses a category or tag attached twice and else
      creates the article with the caller as its author. */
  method CreateArticle(catalog: Catalog, caller: Caller, a: ArticleCreate) returns (r: Result<Article>)
    requires catalog.Valid()
    modifies catalog
    ensures catalog.Valid()
    ensures catalog.products == old(catalog.products) && catalog.categories == old(catalog.categories)
    ensures catalog.tags == old(catalog.tags) && catalog.nextProductId == old(catalog.nextProductId)
    ensures GetArticle(old(catalog.articles), a.slug).Some? ==>
      r == Err(HttpError(400, SLUG_EXISTS)) && catalog.articles == old(catalog.articles)
      && catalog.nextArticleId == old(catalog.nextArticleId)
    ensures GetArticle(old(catalog.articles), a.slug).None? && RepeatsId(Existing(catalog.categories, a.categoryIds)) ==>
      r == Err(IntegrityError("article_categories")) && catalog.articles == old(catalog.articles)
      && catalog.nextArticleId == old(catalog.nextArticleId)
    ensures (GetArticle(old(catalog.articles), a.slug).None? && !RepeatsId(Existing(catalog.categories, a.categoryIds))
      && RepeatsId(Existing(catalog.tags, a.tagIds))) ==>
      r == Err(IntegrityError("article_tags")) && catalog.articles == old(catalog.articles)
      && catalog.nextArticleId == old(catalog.nextArticleId)
    ensures (GetArticle(old(catalog.articles), a.slug).None? && !RepeatsId(Existing(catalog.categories, a.categoryIds))
      && !RepeatsId(Existing(catalog.tags, a.tagIds))) ==>
      r == Ok(NewArticle(old(catalog.nextArticleId), a, caller.id, catalog.categories, catalog.tags))
      && r.value.authorId == caller.id
      && catalog.articles == old(catalog.articles) + [r.value]
      && catalog.nextArticleId == old(catalog.nextArticleId) + 1
  {
    if GetArticle(catalog.articles, a.slug).Some? {
      return Err(HttpError(400, SLUG_EXISTS));
    }
    r := catalog.CreateArticle(a, caller.id);
  }

  /** `update_article`: the guard, then the store's update, which changes
      nothing and answers None. */
  method UpdateArticle(catalog: Catalog, caller: Caller, slug: string, update: ArticleUpdate)
    returns (r: Result<Option<Article>>)
    ensures r.Err? <==> UpdateGuard(catalog.articles, caller, slug).Fail?
    ensures r.Err? ==> r.error == UpdateGuard(catalog.articles, caller, slug).error
    ensures r.Ok? ==> r.value.None?
  {
    var guard := UpdateGuard(catalog.articles, caller, slug);
    if guard.Fail? {
      return Err(guard.error);
    }
    var updated := catalog.UpdateArticle(GetArticle(catalog.articles, slug).value.id, update);
    return Ok(updated);
  }

  /** `delete_article` as written: the superuser dependency, then 404 for an
      unknown slug; then it calls `crud_article.delete_article`, which the
      module does not define, so nothing is ever deleted. */
  method DeleteArticle(catalog: Catalog, superuser: Outcome, slug: string) returns (r: Outcome)
    ensures superuser.Fail? ==> r == superuser
    ensures superuser == Pass && GetArticle(catalog.articles, slug).None? ==> r == Fail(HttpError(404, ARTICLE_NOT_FOUND))
    ensures superuser == Pass && GetArticle(catalog.articles, slug).Some? ==> r == Fail(AttributeError("delete_article"))
    ensures r != Pass
  {
    if superuser.Fail? {
      return superuser;
    }
    if GetArticle(catalog.articles, slug).None? {
      return Fail(HttpError(404, ARTICLE_NOT_FOUND));
    }
    return Fail(AttributeError("delete_article"));
  }

  /** `delete_article` with the removal it evidently means: the article the
      slug names goes, after which no article has that slug. */
  method DeleteArticleIntended(catalog: Catalog, superuser: Outcome, slug: string) returns (r: Outcome)
    requires catalog.Valid()
    modifies catalog
    ensures catalog.Valid()
    ensures catalog.products == old(catalog.products) && catalog.categories == old(catalog.categories)
    ensures catalog.tags == old(catalog.tags)
    ensures catalog.nextProductId == old(catalog.nextProductId) && catalog.nextArticleId == old(catalog.nextArticleId)
    ensures superuser.Fail? ==> r == superuser && catalog.articles == old(catalog.articles)
    ensures superuser == Pass && GetArticle(old(catalog.articles), slug).None? ==>
      r == Fail(HttpError(404, ARTICLE_NOT_FOUND)) && catalog.articles == old(catalog.articles)
    ensures superuser == Pass && GetArticle(old(catalog.articles), slug).Some? ==>
      r == Pass && catalog.articles == RemoveAt(old(catalog.articles), SlugIndex(old(catalog.articles), slug).value)
      && |catalog.articles| == |old(catalog.articles)| - 1
      && GetArticle(catalog.articles, slug).None?
      && forall x :: x in old(catalog.articles) && x.slug != slug ==> x in catalog.articles
  {
    if superuser.Fail? {
      return superuser;
    }
    var i := SlugIndex(catalog.articles, slug);
    if i.None? {
      return Fail(HttpError(404, ARTICLE_NOT_FOUND));
    }
    RemoveKeepsOthers(catalog.articles, i.value, slug);
    catalog.articles := RemoveAt(catalog.articles, i.value);
    return Pass;
  }

  /** The position of the article `get_article` finds. */
  function SlugIndex(articles: seq<Article>, slug: string): (r: Option<nat>)
    ensures r.Some? ==> r.value < |articles| && articles[r.value].slug == slug
    ensures r.None? <==> GetArticle(articles, slug).None?
  {
    FirstIndex(articles, (a: Article) => a.slug == slug)
  }

  /** With distinct slugs, removing the article with `slug` removes the slug
      and keeps every other article, and slugs stay distinct. */
  lemma RemoveKeepsOthers(articles: seq<Article>, i: nat, slug: string)
    requires ArticleSlugsDistinct(articles) && i < |articles| && articles[i].slug == slug
    ensures ArticleSlugsDistinct(RemoveAt(articles, i))
    ensures GetArticle(RemoveAt(articles, i), slug).None?
    ensures forall x :: x in articles && x.slug != slug ==> x in RemoveAt(articles, i)
  {
    var rest := RemoveAt(articles, i);
    forall j | 0 <= j < |rest| ensures rest[j].slug != slug {
      if j < i {
        assert rest[j] == articles[j];
      } else {
        assert rest[j] == articles[j + 1];
      }
    }
    forall x | x in articles && x.slug != slug ensures x in rest {
      var k :| 0 <= k < |articles| && articles[k] == x;
      if k < i {
        assert rest[k] == x;
      } else {
        assert k != i;
        assert rest[k - 1] == x;
      }
    }
    forall a, b | 0 <= a < b < |rest| ensures rest[a].slug != rest[b].slug {
      var a' := if a < i then a else a + 1;
      var b' := if b < i then b else b + 1;
      assert rest[a] == articles[a'] && rest[b] == articles[b'];
    }
  }
}
