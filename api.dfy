/**
 * The JSON handlers of the write router. Each one looks the row up (or
 * fails with 404), consults the gateway (or fails with 502), rejects blank
 * content (422), and only then commits; every failure leaves the store as
 * it was.
 */
module Api {
  import opened Basics
  import opened Text
  import opened Models
  import opened Schemas
  import opened Store
  import Gateway

  /** A handler's reply: the body on 200, or the HTTP error it raises with its detail. */
  datatype ApiResult<+T> =
    | Success(value: T)
    | NotFound(detail: string)        // 404
    | Unprocessable(detail: string)   // 422
    | BadGateway(detail: string)      // 502

  const ArticleNotFound: string := "Article not found"
  const EmptyContentDetail: string := "Article content cannot be empty"
  const GenerationEmpty: string := "LLM generation returned empty content"
  const RewriteEmpty: string := "LLM rewrite returned empty content"
  const GenerationFailed: string := "LLM generation failed: "
  const RewriteFailed: string := "LLM rewrite failed: "

  /** `_get_article_or_404`: the stored row, or a 404. */
  method GetArticleOr404(db: ArticleStore, id: int) returns (r: ApiResult<Article>)
    ensures r.Success? <==> id in db.rows
    ensures r.Success? ==> r.value == db.rows[id]
    ensures !r.Success? ==> r == NotFound(ArticleNotFound)
  {
    var found := db.Find(id);
    r := if found.Some? then Success(found.value) else NotFound(ArticleNotFound);
  }

  /**
   * This module's `_require_non_empty`: a 502 with `message` on missing or
   * blank text; otherwise the text itself, not stripped.
   */
  function RequireNonEmpty(text: Option<string>, message: string): (r: Result<string>)
    ensures r.Err? <==> text.None? || AllWs(text.value)
    ensures r.Err? ==> r.error == message
    ensures r.Ok? ==> r.value == text.value
  {
    if text.None? || Strip(text.value) == [] then Err(message) else Ok(text.value)
  }

  /** The gateway already refuses blank text, so the handlers' second check never fires on its output. */
  lemma GatewayTextPassesCheck(text: string, message: string)
    requires !AllWs(text) && Strip(text) == text
    ensures RequireNonEmpty(Some(text), message) == Ok(text)
  {
  }

  /** `_apply_update`: each column whose update value is not None is overwritten; the rest are kept. */
  function Patched(c: Columns, u: ArticleUpdate): (d: Columns)
    ensures u.title.None? ==> d.title == c.title
    ensures u.title.Some? ==> d.title == u.title.value
    ensures u.audience.None? ==> d.audience == c.audience
    ensures u.audience.Some? ==> d.audience == u.audience.value
    ensures u.tone.None? ==> d.tone == c.tone
    ensures u.tone.Some? ==> d.tone == u.tone.value
    ensures u.article.None? ==> d.content == c.content
    ensures u.article.Some? ==> d.content == u.article.value
  {
    Columns(u.title.GetOr(c.title), u.audience.GetOr(c.audience), u.tone.GetOr(c.tone),
            u.article.GetOr(c.content))
  }

  /** An update that omits every field changes nothing. */
  lemma PatchedEmptyIsIdentity(c: Columns)
    ensures Patched(c, ArticleUpdate(None, None, None, None)) == c
  {
  }

  /** `POST /generate`: generate text, then insert one row; on failure insert nothing. */
  method Generate(db: ArticleStore, req: GenerateRequest, provider: Gateway.Provider)
    returns (r: ApiResult<GenerateResponse>)
    requires db.Valid()
    modifies db
    ensures db.Valid() && Evolved(old(db.rows), db.rows)
    ensures var g := Gateway.GenerateArticle(req.title, req.audience, req.tone, provider);
      && (g.Err? ==> r == BadGateway(GenerationFailed + g.error) && unchanged(db))
      && (g.Ok? ==>
            var id := NextRowId(old(db.rows).Keys, old(db.clock));
            && r == Success(GenerateResponse(id, req.title, g.value))
            && db.clock == old(db.clock) + 1
            && db.rows == old(db.rows)[id := NewRow(id, req.title, Some(req.audience), Some(req.tone),
                                                    g.value, db.clock)])
    ensures r.Success? ==> r.value.id !in old(db.rows) && |db.rows| == |old(db.rows)| + 1
    ensures !r.Success? ==> |db.rows| == |old(db.rows)|
  {
    var g := Gateway.GenerateArticle(req.title, req.audience, req.tone, provider);
    if g.Err? {
      return BadGateway(GenerationFailed + g.error);
    }
    var checked := RequireNonEmpty(Some(g.value), GenerationEmpty);
    if checked.Err? {
      return BadGateway(GenerationEmpty);
    }
    var row := db.Add(req.title, req.audience, req.tone, checked.value);
    r := Success(GenerateResponse(row.id, row.title, row.content));
  }

  /** `GET /articles`: every stored article exactly once, newest id first. */
  method ListArticles(db: ArticleStore) returns (r: seq<ArticleOut>)
    requires db.Valid()
    ensures forall i, j :: 0 <= i < j < |r| ==> r[i].id > r[j].id
    ensures forall i :: 0 <= i < |r| ==> r[i].id in db.rows && r[i] == ToArticleOut(db.rows[r[i].id])
    ensures forall id :: id in db.rows ==> ToArticleOut(db.rows[id]) in r
  {
    var rows := NewestFirst(db.rows, db.clock);
    r := seq(|rows|, i requires 0 <= i < |rows| => ToArticleOut(rows[i]));
    assert forall i :: 0 <= i < |r| ==> r[i] == ToArticleOut(rows[i]) && r[i].id == rows[i].id;
    forall id | id in db.rows ensures ToArticleOut(db.rows[id]) in r {
      var i :| 0 <= i < |rows| && rows[i] == db.rows[id];
      assert r[i] == ToArticleOut(db.rows[id]);
    }
  }

  /** `GET /articles/{id}`. */
  method GetArticle(db: ArticleStore, id: int) returns (r: ApiResult<ArticleOut>)
    ensures r.Success? <==> id in db.rows
    ensures r.Success? ==> r.value == ToArticleOut(db.rows[id]) && r.value.article == db.rows[id].content
    ensures !r.Success? ==> r == NotFound(ArticleNotFound)
  {
    var a := GetArticleOr404(db, id);
    if !a.Success? {
      return NotFound(ArticleNotFound);
    }
    r := Success(ToArticleOut(a.value));
  }

  /** `PUT /articles/{id}`: partial update; 404 before anything else, 422 on blank resulting content. */
  method UpdateArticle(db: ArticleStore, id: int, u: ArticleUpdate) returns (r: ApiResult<ArticleOut>)
    requires db.Valid()
    modifies db
    ensures db.Valid() && Evolved(old(db.rows), db.rows)
    ensures id !in old(db.rows) ==> r == NotFound(ArticleNotFound) && unchanged(db)
    ensures id in old(db.rows) ==>
      var edited := Patched(ColumnsOf(old(db.rows)[id]), u);
      && (AllWs(edited.content) ==> r == Unprocessable(EmptyContentDetail) && unchanged(db))
      && (!AllWs(edited.content) ==>
            && db.clock == old(db.clock) + 1
            && db.rows == old(db.rows)[id := Refreshed(old(db.rows)[id], edited, db.clock)]
            && r == Success(ToArticleOut(db.rows[id])))
    ensures id in old(db.rows) && u.article.None? ==> r.Success?
  {
    var a := GetArticleOr404(db, id);
    if !a.Success? {
      return NotFound(ArticleNotFound);
    }
    var edited := Patched(ColumnsOf(a.value), u);
    if Strip(edited.content) == [] {
      return Unprocessable(EmptyContentDetail);
    }
    db.Commit(id, edited);
    r := Success(ToArticleOut(db.rows[id]));
  }

  /** `PATCH /articles/{id}`: the same code path as PUT, so the same contract. */
  method PatchArticle(db: ArticleStore, id: int, u: ArticleUpdate) returns (r: ApiResult<ArticleOut>)
    requires db.Valid()
    modifies db
    ensures db.Valid() && Evolved(old(db.rows), db.rows)
    ensures id !in old(db.rows) ==> r == NotFound(ArticleNotFound) && unchanged(db)
    ensures id in old(db.rows) ==>
      var edited := Patched(ColumnsOf(old(db.rows)[id]), u);
      && (AllWs(edited.content) ==> r == Unprocessable(EmptyContentDetail) && unchanged(db))
      && (!AllWs(edited.content) ==>
            && db.clock == old(db.clock) + 1
            && db.rows == old(db.rows)[id := Refreshed(old(db.rows)[id], edited, db.clock)]
            && r == Success(ToArticleOut(db.rows[id])))
    ensures id in old(db.rows) && u.article.None? ==> r.Success?
  {
    var a := GetArticleOr404(db, id);
    if !a.Success? {
      return NotFound(ArticleNotFound);
    }
    var edited := Patched(ColumnsOf(a.value), u);
    if Strip(edited.content) == [] {
      return Unprocessable(EmptyContentDetail);
    }
    db.Commit(id, edited);
    r := Success(ToArticleOut(db.rows[id]));
  }

  /** `DELETE /articles/{id}`: removes exactly that row. */
  method DeleteArticle(db: ArticleStore, id: int) returns (r: ApiResult<DeleteResponse>)
    requires db.Valid()
    modifies db
    ensures db.Valid() && Evolved(old(db.rows), db.rows)
    ensures id !in old(db.rows) ==> r == NotFound(ArticleNotFound) && unchanged(db)
    ensures id in old(db.rows) ==>
      r == Success(DeleteResponse(true, id)) && db.rows == old(db.rows) - {id} && db.clock == old(db.clock)
    ensures id !in db.rows
  {
    var a := GetArticleOr404(db, id);
    if !a.Success? {
      return NotFound(ArticleNotFound);
    }
    db.Delete(id);
    r := Success(DeleteResponse(true, id));
  }

  /**
   * `POST /rewrite/{id}`: 404 before the provider is asked; on provider
   * failure a 502 with nothing changed; on success content and tone replaced.
   */
  method Rewrite(db: ArticleStore, id: int, req: RewriteRequest, provider: Gateway.Provider)
    returns (r: ApiResult<ArticleOut>)
    requires db.Valid()
    modifies db
    ensures db.Valid() && Evolved(old(db.rows), db.rows)
    ensures id !in old(db.rows) ==> r == NotFound(ArticleNotFound) && unchanged(db)
    ensures id in old(db.rows) ==>
      var a := old(db.rows)[id];
      var g := Gateway.RewriteArticle(a.content, req.tone, provider);
      && (g.Err? ==> r == BadGateway(RewriteFailed + g.error) && unchanged(db))
      && (g.Ok? ==>
            && db.clock == old(db.clock) + 1
            && db.rows == old(db.rows)[id := Refreshed(a, ColumnsOf(a).(content := g.value, tone := req.tone),
                                                       db.clock)]
            && r == Success(ToArticleOut(db.rows[id])))
  {
    var a := GetArticleOr404(db, id);
    if !a.Success? {
      return NotFound(ArticleNotFound);
    }
    var g := Gateway.RewriteArticle(a.value.content, req.tone, provider);
    if g.Err? {
      return BadGateway(RewriteFailed + g.error);
    }
    var checked := RequireNonEmpty(Some(g.value), RewriteEmpty);
    if checked.Err? {
      return BadGateway(RewriteEmpty);
    }
    db.Commit(id, ColumnsOf(a.value).(content := checked.value, tone := req.tone));
    r := Success(ToArticleOut(db.rows[id]));
  }
}
