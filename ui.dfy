/**
 * The HTML form actions under `/ui`. Unlike the JSON handlers they never
 * report a provider failure as an error status: every failure becomes a 303
 * redirect back to a page with an `error` query parameter, and only a
 * missing article is a 404.
 */
module Ui {
  import opened Basics
  import opened Text
  import opened Models
  import opened Store
  import Gateway

  /** What an action answers: a 303 redirect to `url`, or a 404 with its detail. */
  datatype UiResult = Redirect(url: string) | NotFound(detail: string)

  const ArticleNotFound: string := "Article not found"
  const IndexUrl: string := "/ui"
  const NewFailedUrl: string := "/ui/new?error=llm_failed"
  const ArticlePrefix: string := "/ui/articles/"
  const EmptyContentQuery: string := "?error=empty_content"
  const LlmFailedQuery: string := "?error=llm_failed"

  /** This module's `_get_article_or_404`: the stored row, or the 404 detail "Article not found". */
  method GetArticleOr404(db: ArticleStore, id: int) returns (r: Result<Article>)
    ensures r.Ok? <==> id in db.rows
    ensures r.Ok? ==> r.value == db.rows[id]
    ensures r.Err? ==> r.error == ArticleNotFound
  {
    var found := db.Find(id);
    r := if found.Some? then Ok(found.value) else Err(ArticleNotFound);
  }

  /** `_is_blank`: missing text, or text that strips to nothing. */
  function IsBlank(text: Option<string>): (b: bool)
    ensures b <==> text.None? || AllWs(text.value)
    ensures !b ==> exists i :: 0 <= i < |text.value| && !IsWs(text.value[i])
  {
    text.None? || Strip(text.value) == []
  }

  /** The edit page of article `id`. */
  function ArticleUrl(id: int): (url: string)
    ensures |url| > |ArticlePrefix| && url[..|ArticlePrefix|] == ArticlePrefix
    ensures ArticleIdOf(url) == Some(id)
  {
    IntTextRoundTrip(id);
    assert (ArticlePrefix + IntText(id))[|ArticlePrefix|..] == IntText(id);
    ArticlePrefix + IntText(id)
  }

  /** The id an article URL names, read back from the path. */
  function ArticleIdOf(url: string): (id: Option<int>)
  {
    if |url| >= |ArticlePrefix| && url[..|ArticlePrefix|] == ArticlePrefix
    then ParseInt(url[|ArticlePrefix|..])
    else None
  }

  /** Different articles have different edit pages. */
  lemma ArticleUrlInjective(m: int, n: int)
    requires ArticleUrl(m) == ArticleUrl(n)
    ensures m == n
  {
    assert ArticleIdOf(ArticleUrl(m)) == Some(m);
  }

  /** `ui_index`, ordering only: every stored article exactly once, newest id first. */
  method Index(db: ArticleStore) returns (r: seq<Article>)
    requires db.Valid()
    ensures forall i, j :: 0 <= i < j < |r| ==> r[i].id > r[j].id
    ensures forall i :: 0 <= i < |r| ==> r[i].id in db.rows && r[i] == db.rows[r[i].id]
    ensures forall id :: id in db.rows ==> db.rows[id] in r
  {
    r := NewestFirst(db.rows, db.clock);
  }

  /**
   * `ui_generate`: the form's audience and tone default to "general" and
   * "friendly"; a provider failure inserts nothing and sends the user back
   * to the new-article page.
   */
  method Generate(db: ArticleStore, title: string, audience: Option<string>, tone: Option<string>,
                  provider: Gateway.Provider)
    returns (r: UiResult)
    requires db.Valid()
    modifies db
    ensures db.Valid() && Evolved(old(db.rows), db.rows)
    ensures var aud := audience.GetOr(DefaultAudience);
      var tn := tone.GetOr(DefaultTone);
      var g := Gateway.GenerateArticle(title, aud, tn, provider);
      && (g.Err? ==> r == Redirect(NewFailedUrl) && unchanged(db))
      && (g.Ok? ==>
            var id := NextRowId(old(db.rows).Keys, old(db.clock));
            && r == Redirect(ArticleUrl(id))
            && db.clock == old(db.clock) + 1
            && db.rows == old(db.rows)[id := NewRow(id, title, Some(aud), Some(tn), g.value, db.clock)])
  {
    var aud := audience.GetOr(DefaultAudience);
    var tn := tone.GetOr(DefaultTone);
    var g := Gateway.GenerateArticle(title, aud, tn, provider);
    if g.Err? {
      return Redirect(NewFailedUrl);
    }
    if IsBlank(Some(g.value)) {
      return Redirect(NewFailedUrl);
    }
    var row := db.Add(title, aud, tn, g.value);
    r := Redirect(ArticleUrl(row.id));
  }

  /**
   * `ui_update`: blank content is refused before the article is looked up,
   * so even an unknown id gets the `empty_content` redirect; otherwise all
   * four columns are replaced.
   */
  method Update(db: ArticleStore, id: int, title: string, audience: string, tone: string, content: string)
    returns (r: UiResult)
    requires db.Valid()
    modifies db
    ensures db.Valid() && Evolved(old(db.rows), db.rows)
    ensures AllWs(content) ==> r == Redirect(ArticleUrl(id) + EmptyContentQuery) && unchanged(db)
    ensures !AllWs(content) && id !in old(db.rows) ==> r == NotFound(ArticleNotFound) && unchanged(db)
    ensures !AllWs(content) && id in old(db.rows) ==>
      && r == Redirect(ArticleUrl(id))
      && db.clock == old(db.clock) + 1
      && db.rows == old(db.rows)[id := Refreshed(old(db.rows)[id], Columns(title, audience, tone, content), db.clock)]
  {
    if IsBlank(Some(content)) {
      return Redirect(ArticleUrl(id) + EmptyContentQuery);
    }
    var found := GetArticleOr404(db, id);
    if found.Err? {
      return NotFound(found.error);
    }
    db.Commit(id, Columns(title, audience, tone, content));
    r := Redirect(ArticleUrl(id));
  }

  /**
   * `ui_rewrite`: 404 before the provider is asked; a provider failure
   * changes nothing and redirects with `llm_failed`; success replaces only
   * content and tone. The form's tone defaults to "friendly".
   */
  method Rewrite(db: ArticleStore, id: int, tone: Option<string>, provider: Gateway.Provider)
    returns (r: UiResult)
    requires db.Valid()
    modifies db
    ensures db.Valid() && Evolved(old(db.rows), db.rows)
    ensures id !in old(db.rows) ==> r == NotFound(ArticleNotFound) && unchanged(db)
    ensures id in old(db.rows) ==>
      var a := old(db.rows)[id];
      var tn := tone.GetOr(DefaultTone);
      var g := Gateway.RewriteArticle(a.content, tn, provider);
      && (g.Err? ==> r == Redirect(ArticleUrl(id) + LlmFailedQuery) && unchanged(db))
      && (g.Ok? ==>
            && r == Redirect(ArticleUrl(id))
            && db.clock == old(db.clock) + 1
            && db.rows == old(db.rows)[id := Refreshed(a, ColumnsOf(a).(content := g.value, tone := tn), db.clock)])
  {
    var tn := tone.GetOr(DefaultTone);
    var found := GetArticleOr404(db, id);
    if found.Err? {
      return NotFound(found.error);
    }
    var a := found.value;
    var g := Gateway.RewriteArticle(a.content, tn, provider);
    if g.Err? {
      return Redirect(ArticleUrl(id) + LlmFailedQuery);
    }
    if IsBlank(Some(g.value)) {
      return Redirect(ArticleUrl(id) + LlmFailedQuery);
    }
    db.Commit(id, ColumnsOf(a).(content := g.value, tone := tn));
    r := Redirect(ArticleUrl(id));
  }

  /** `ui_delete`: removes exactly the named row and returns to the index. */
  method Delete(db: ArticleStore, id: int) returns (r: UiResult)
    requires db.Valid()
    modifies db
    ensures db.Valid() && Evolved(old(db.rows), db.rows)
    ensures id !in old(db.rows) ==> r == NotFound(ArticleNotFound) && unchanged(db)
    ensures id in old(db.rows) ==> r == Redirect(IndexUrl) && db.rows == old(db.rows) - {id} && db.clock == old(db.clock)
  {
    var found := GetArticleOr404(db, id);
    if found.Err? {
      return NotFound(found.error);
    }
    db.Delete(id);
    r := Redirect(IndexUrl);
  }
}
