/**
 * Worked cases: stub providers that always give the same answer, and what
 * the handlers' contracts then say about a generate, a tone-only update, a
 * rewrite answered with "" and a double delete.
 */
module Scenarios {
  import opened Basics
  import opened Text
  import opened Models
  import opened Schemas
  import opened Store
  import opened Api
  import Gateway

  const StubArticle: string := "# Test Post\n\nBody."

  /** A provider that always answers with one choice holding `text`. */
  function Answering(text: string): (p: Gateway.Provider)
    ensures forall q :: p(q) == Gateway.Replied([Gateway.Choice(Some(text), Some("stop"), 0)])
  {
    (q: Gateway.ChatRequest) => Gateway.Replied([Gateway.Choice(Some(text), Some("stop"), 0)])
  }

  lemma StubArticleIsStripped()
    ensures !AllWs(StubArticle) && Strip(StubArticle) == StubArticle
  {
    assert StubArticle[0] == '#';
    assert StubArticle == [] + StubArticle + [];
    StripFramed([], StubArticle, []);
  }

  /** Whatever the prompt, a provider answering `text` completes with the stripped text, or fails on blank text. */
  lemma AnsweringCompletes(prompt: string, text: string)
    ensures !AllWs(text) ==> Gateway.Complete(prompt, Answering(text)) == Ok(Strip(text))
    ensures AllWs(text) ==> Gateway.Complete(prompt, Answering(text)).Err?
  {
    var reply := Gateway.Replied([Gateway.Choice(Some(text), Some("stop"), 0)]);
    assert Answering(text)(Gateway.ChatRequest(Gateway.SystemMessage, prompt)) == reply;
  }

  lemma AnsweringGenerates(text: string, title: string, audience: string, tone: string)
    requires !AllWs(text) && Strip(text) == text
    ensures Gateway.GenerateArticle(title, audience, tone, Answering(text)) == Ok(text)
  {
    AnsweringCompletes(Gateway.GeneratePrompt(title, audience, tone), text);
  }

  lemma BlankAnswerFailsRewrite(text: string, source: string, tone: string)
    requires AllWs(text)
    ensures Gateway.RewriteArticle(source, tone, Answering(text)).Err?
  {
    AnsweringCompletes(Gateway.RewritePrompt(source, tone), text);
  }

  /** A stub answering "# Test Post\n\nBody." makes generation return exactly that text. */
  lemma StubArticleGenerated(title: string, audience: string, tone: string)
    ensures Gateway.GenerateArticle(title, audience, tone, Answering(StubArticle)) == Ok(StubArticle)
  {
    StubArticleIsStripped();
    AnsweringGenerates(StubArticle, title, audience, tone);
  }

  /** With `Api.UpdateArticle`'s contract: an update giving only a tone changes the tone and nothing else. */
  lemma ToneOnlyUpdate(c: Columns, tone: string)
    ensures Patched(c, ArticleUpdate(None, None, Some(tone), None)) == c.(tone := tone)
    ensures !AllWs(c.content) ==> !AllWs(Patched(c, ArticleUpdate(None, None, Some(tone), None)).content)
  {
  }

  /** With `Api.Rewrite`'s contract: a stub answering "" makes a rewrite fail, so nothing is committed. */
  lemma EmptyAnswerFailsRewrite(source: string, tone: string)
    ensures Gateway.RewriteArticle(source, tone, Answering("")).Err?
  {
    BlankAnswerFailsRewrite("", source, tone);
  }

  /** A generate answered by the stub stores the stub's text under the request's title, audience and tone. */
  method GenerateStub(db: ArticleStore, title: string, audience: string, tone: string)
    returns (r: ApiResult<GenerateResponse>)
    requires db.Valid()
    modifies db
    ensures r.Success? && r.value.article == StubArticle && r.value.id in db.rows
    ensures var a := db.rows[r.value.id];
      a.title == title && a.audience == audience && a.tone == tone && a.content == StubArticle
  {
    StubArticleGenerated(title, audience, tone);
    r := Api.Generate(db, GenerateRequest(title, audience, tone), Answering(StubArticle));
  }

  /** A rewrite answered with "" is a 502 "LLM rewrite failed: ..." and changes nothing. */
  method RewriteEmptyAnswer(db: ArticleStore, id: int, tone: string) returns (r: ApiResult<ArticleOut>)
    requires db.Valid() && id in db.rows
    modifies db
    ensures r.BadGateway? && |r.detail| >= |RewriteFailed| && r.detail[..|RewriteFailed|] == RewriteFailed
    ensures unchanged(db)
  {
    EmptyAnswerFailsRewrite(db.rows[id].content, tone);
    r := Api.Rewrite(db, id, RewriteRequest(tone), Answering(""));
  }

  /** Deleting the same id twice: the first succeeds, the second is not found. */
  method DeleteTwice(db: ArticleStore, id: int) returns (first: ApiResult<DeleteResponse>, second: ApiResult<DeleteResponse>)
    requires db.Valid() && id in db.rows
    modifies db
    ensures first == Success(DeleteResponse(true, id))
    ensures second == NotFound(ArticleNotFound)
  {
    first := Api.DeleteArticle(db, id);
    second := Api.DeleteArticle(db, id);
  }
}
