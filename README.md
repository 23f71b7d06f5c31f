# WritePilot article lifecycle, modelled in Dafny

WritePilot is a small FastAPI service. It asks a chat-completion provider for
English blog articles, stores them in SQLite, and lets the user edit, rewrite
(in a new tone) and delete them. It does this through a JSON API
(`app/api/write.py`) and through HTML form actions under `/ui`
(`app/ui/web.py`). This project models:

- the `articles` row and its column defaults and timestamp rules (`Models`);
- the table as a class holding the rows by id and an abstract clock (`Store.ArticleStore`);
- the request and response shapes with their field constraints (`Schemas`);
- the text-generation gateway: prompt construction, first-choice extraction, the non-blank check and its diagnostic message (`Gateway`);
- every JSON handler (`Api`) and every UI form action (`Ui`), as methods on the store;
- Python's `str.strip`/`isspace` and `str(int)` (`Text`);
- the worked scenarios of a generate, a tone-only update, a failing rewrite and a double delete (`Scenarios`).

The provider is a parameter of type `ChatRequest -> ProviderReply`, so the
exact prompt each operation sends is part of the model. A raised exception is
`Raised(message)`. A reply is the list of choices, each with its optional
content, optional finish reason and number of tool calls. The wall clock is a
counter that ticks once per insert or update commit; a delete does not move it.

Each handler's contract gives, for every outcome, its result and the whole new
state of the store:

- the lookup comes first, except that `ui_update` checks for blank content before it and a generate looks nothing up;
- a rewrite asks the provider only for an existing row;
- blank text is refused before anything is committed;
- a failure leaves the store `unchanged`.

Every handler also preserves `ArticleStore.Valid()`:

- rows are keyed by their own id;
- ids lie in `[1, clock]`;
- no stored content is blank;
- `created_at <= updated_at <= clock`.

`Evolved` states that no commit moves `created_at` or moves `updated_at` back.

Whitespace is exactly the set of characters for which Python's `str.isspace()`
holds, so "blank" has the same meaning as `not text.strip()` in the source.

## Model

| member | source | states |
|---|---|---|
| Text.Strip | app/services/openai_client.py:47 | the result is empty exactly when every character is whitespace; otherwise it starts and ends with a non-whitespace character |
| Text.StripFramed | app/services/openai_client.py:35 | stripping removes exactly the surrounding whitespace: any whitespace framing a tight text strips back to that text |
| Text.StripIdempotent | app/services/openai_client.py:17 | stripping an already stripped text changes nothing |
| Text.IntTextRoundTrip | app/ui/web.py:118 | the decimal rendering of an id (sign, digits, no leading zero) parses back to the same id |
| Text.IntTextInjective | app/ui/web.py:118 | distinct ids render to distinct texts |
| Models.NewRow | app/db/models.py:10-24 | an inserted row carries the given id, title and content; audience falls back to "general" and tone to "friendly"; both timestamps are the insert time |
| Models.Refreshed | app/db/models.py:16-24 | after a commit the row has the edited columns, the same id and the same `created_at`; `updated_at` is the commit time when some column changed, and the row is untouched when none did |
| Schemas.ParseGenerateRequest | app/schemas/write.py:6-9 | accepted exactly when title is a string of 1 to 200 characters and audience and tone are absent or strings of at most 50; absent audience and tone become "general" and "friendly" |
| Schemas.ParseRewriteRequest | app/schemas/write.py:75-76 | accepted exactly when tone is absent or a string of at most 50 characters; absent means "friendly" |
| Schemas.ParseArticleUpdate | app/schemas/write.py:88-92 | every field is optional; an absent or null field becomes None ("leave unchanged") and a string is kept as given; a non-string is refused |
| Schemas.ToArticleOut | app/api/write.py:25-34 | the external form loses no column: reading it back gives the row, with the body under `article` |
| Gateway.RequireNonEmpty | app/services/openai_client.py:14-17 | fails with the given message exactly on missing or blank text; otherwise returns the stripped text, which is non-empty and strips to itself |
| Gateway.GeneratePromptLines | app/services/openai_client.py:21-35 | the generate prompt is the fixed introduction, then the `- Title:`, `- Audience:` and `- Tone:` lines carrying the arguments verbatim, then the fixed requirements |
| Gateway.RewritePromptLines | app/services/openai_client.py:57-71 | the rewrite prompt carries the target tone on its `- Tone:` line and the source text after `ARTICLE:`; only the text's trailing whitespace is lost, and a blank text leaves the prompt ending at `ARTICLE:` |
| Gateway.EmptyContentMessageReports | app/services/openai_client.py:49-53 | the empty-content diagnostic can be read back: it reports the finish reason (`None` when absent) and whether tool calls were present |
| Gateway.FirstChoiceText | app/services/openai_client.py:46-53 | a raised call and an empty choice list fail; otherwise the result succeeds exactly when the first choice's content is present and non-blank (missing content counts as ""), is that content stripped, and a failure carries the diagnostic for that choice |
| Gateway.Complete | app/services/openai_client.py:37-53 | a successful completion is never blank and is already stripped |
| Gateway.GenerateArticle | app/services/openai_client.py:20-53 | never returns blank or unstripped text |
| Gateway.RewriteArticle | app/services/openai_client.py:56-89 | never returns blank or unstripped text, by the same rule |
| Gateway.GenerateArticleSends | app/services/openai_client.py:21-46 | generation sends the fixed system message and a user message with title, audience and tone verbatim on their own lines, and its answer is read from the reply to exactly that request |
| Gateway.RewriteArticleSends | app/services/openai_client.py:57-82 | a rewrite sends the fixed system message and a user message with the target tone and, after `ARTICLE:`, the article without its trailing whitespace |
| Store.NextRowId | app/db/models.py:10 | the id of an insert is absent from the table, larger than every present id, and one more than a present id (or 1 in an empty table) |
| Store.NextRowIdUnique | app/db/models.py:10 | that rule determines the id uniquely |
| Store.NewestIdReused | app/db/models.py:10 | ids are not monotonic: when the newest row `m` is deleted and `m - 1` is present (or `m` is 1), the next insert gets `m` again |
| Store.NewestDeletedBound | app/db/models.py:10 | after the newest row `m` is deleted, the next insert gets an id of at most `m`, whatever ids lie below it |
| Store.NewestFirst | app/api/write.py:120-121 | lists every row with an id in `[1, hi]` exactly once, in strictly decreasing id order; under `ArticleStore.Valid()`, which bounds every id by the clock, that is every stored row |
| Store.ArticleStore.Find | app/api/write.py:38 | finds a row exactly when its id is present, and returns that row |
| Store.ArticleStore.Add | app/api/write.py:96-104 | inserts one row under the next rowid with the insert-time defaults and timestamps; no other row changes |
| Store.ArticleStore.Commit | app/api/write.py:152-153 | replaces only row `id`, by its refreshed version |
| Store.ArticleStore.Delete | app/api/write.py:186-187 | removes exactly row `id` |
| Api.GetArticleOr404 | app/api/write.py:37-44 | the stored row when the id is present, otherwise a 404 "Article not found" |
| Api.RequireNonEmpty | app/api/write.py:58-64 | a 502 with the given detail exactly on missing or blank text; otherwise the text itself, not stripped |
| Api.GatewayTextPassesCheck | app/api/write.py:94 | the handlers' second blank check always passes on what the gateway returns |
| Api.Patched | app/api/write.py:47-55 | each column whose update value is not None is overwritten by it, and every other column keeps its value |
| Api.PatchedEmptyIsIdentity | app/api/write.py:47-55 | an update with no fields changes no column |
| Api.Generate | app/api/write.py:85-110 | on a provider failure, a 502 "LLM generation failed: ..." and no row; on success, exactly one new row with the request's columns and the generated text, answered with its id, title and text |
| Api.ListArticles | app/api/write.py:119-122 | every stored article exactly once, in strictly decreasing id order, each in its external form |
| Api.GetArticle | app/api/write.py:131-133 | the row's external form, with `article` equal to its content, or a 404 |
| Api.UpdateArticle | app/api/write.py:142-154 | 404 before any field is applied; 422 on blank resulting content, with nothing committed; otherwise the patched row is committed; an update without `article` succeeds on any stored row |
| Api.PatchArticle | app/api/write.py:163-175 | the same contract as `UpdateArticle`: PUT and PATCH behave identically |
| Api.DeleteArticle | app/api/write.py:183-188 | 404 on an absent id; otherwise exactly that row is removed and `{deleted: true, id}` returned; afterwards the id is absent |
| Api.Rewrite | app/api/write.py:197-215 | 404 before the provider is asked; a provider failure gives 502 "LLM rewrite failed: ..." and changes nothing; success replaces content and tone only |
| Ui.GetArticleOr404 | app/ui/web.py:27-34 | the stored row when the id is present, otherwise the 404 detail "Article not found" |
| Ui.IsBlank | app/ui/web.py:37-38 | blank exactly when the text is missing or entirely whitespace |
| Ui.ArticleUrl | app/ui/web.py:118 | the edit-page URL is `/ui/articles/` followed by the id, which can be read back from it |
| Ui.ArticleUrlInjective | app/ui/web.py:142 | different articles redirect to different pages |
| Ui.Index | app/ui/web.py:51-53 | every stored article exactly once, newest id first |
| Ui.Generate | app/ui/web.py:90-118 | form audience and tone default to "general" and "friendly"; a provider failure inserts nothing and redirects to `/ui/new?error=llm_failed`; success inserts one row and redirects to its page |
| Ui.Update | app/ui/web.py:122-142 | blank content redirects with `error=empty_content` before the lookup, even for an unknown id, changing nothing; otherwise 404 or all four columns replaced and a redirect to the page |
| Ui.Rewrite | app/ui/web.py:146-171 | 404 before the provider is asked; a failure redirects with `error=llm_failed` and changes nothing; success replaces content and tone only |
| Ui.Delete | app/ui/web.py:175-179 | 404 on an absent id; otherwise exactly that row is removed and the user is sent to `/ui` |
| Scenarios.AnsweringCompletes | app/services/openai_client.py:46-53 | a provider answering one choice gives back that choice's stripped text, or fails when it is blank, whatever the prompt |
| Scenarios.AnsweringGenerates | app/services/openai_client.py:20-53 | generation with such a provider returns its text when that text is non-blank and already stripped |
| Scenarios.BlankAnswerFailsRewrite | app/services/openai_client.py:56-89 | a rewrite whose provider answers blank text fails |
| Scenarios.StubArticleGenerated | app/services/openai_client.py:20-53 | a provider stub answering "# Test Post\n\nBody." makes generation return exactly that text |
| Scenarios.GenerateStub | app/api/write.py:85-110 | with that stub, `POST /generate` succeeds, answers the stub's text, and stores it under the request's title, audience and tone |
| Scenarios.ToneOnlyUpdate | app/api/write.py:47-55 | an update giving only a tone changes the tone and keeps title, audience and body, so it passes the blank-content check whenever the stored body is non-blank, as every stored body is |
| Scenarios.EmptyAnswerFailsRewrite | app/services/openai_client.py:56-89 | a rewrite whose provider answers "" fails |
| Scenarios.RewriteEmptyAnswer | app/api/write.py:197-215 | with a provider answering "", `POST /rewrite/{id}` on a stored article answers 502 "LLM rewrite failed: ..." and changes nothing |
| Scenarios.DeleteTwice | app/api/write.py:183-188 | deleting an id twice succeeds once and is "Article not found" the second time |

## Where the model follows the code

- `updated_at` is refreshed only when a commit actually changes a column. SQLAlchemy's `onupdate` runs only when an UPDATE is emitted, and no UPDATE is emitted when the assigned values equal the old ones (`Models.Refreshed`).
- Ids are not monotonically increasing. `autoincrement=True` in SQLAlchemy does not emit SQLite's `AUTOINCREMENT` keyword, so SQLite gives max+1. Deleting the newest row never raises the next id above the deleted one (`Store.NewestDeletedBound`), and hands that very id out again when the id just below it is present (`Store.NewestIdReused`).
- In the UI a missing article is a 404 from `_get_article_or_404`, not a redirect with an error code.

## Left out

- The OpenAI client: its construction, the network call, the model name, `temperature=0.7` and the API key configuration. The provider is a parameter, and an exception's text is an uninterpreted string.
- Gateway.FirstChoiceText: the first choice's tool calls are a count; only whether it is zero matters to the code.
- FastAPI routing, dependency injection, request-body and form decoding, and CORS. Status codes are constructors of `Api.ApiResult` and `Ui.UiResult`, and a 303 redirect is its URL.
- Form decoding: FastAPI treats an empty form value as missing, so `ui_update` with `content=""` is refused by the framework before the handler runs. The model starts at the handler's arguments.
- The `ping` route (constant reply, no state), the `ui_new` and `ui_edit` pages, Jinja rendering and the server-side logging in `_log_exc`.
- Pydantic details beyond field presence, type and length: extra JSON fields, coercion, and the exact text of validation errors (the model names only the offending field).
- SQLAlchemy sessions, `db.refresh`, engine and table setup, and environment configuration.
- SQLite does not enforce the declared `String(200)`/`String(50)` widths, so the store accepts any length, as SQLite does.
- SQLite's fallback to a random unused rowid once the largest id reaches the 64-bit maximum: ids are unbounded integers here.
- Models.NewRow: both timestamps of an insert take the same clock tick. The code calls `datetime.utcnow` once per column, so they may differ by microseconds.
- Store.ArticleStore.Commit: the clock ticks on every commit, even one that changes nothing; the ticks stand in for wall-clock time, which also moves.
- Concurrency: two requests racing on the same row (last commit wins) are not modelled; every operation runs alone.
