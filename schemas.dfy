/**
 * Request and response bodies of the JSON API and the validation the
 * request models apply before a handler runs (a failure is a 422 reply).
 */
module Schemas {
  import opened Basics
  import Models

  /** One member of a JSON request body as it arrives. */
  datatype JsonField = Absent | Null | Str(s: string) | NonString

  datatype GenerateRequest = GenerateRequest(title: string, audience: string, tone: string)
  datatype RewriteRequest = RewriteRequest(tone: string)
  /** `None` means "leave this column unchanged". */
  datatype ArticleUpdate = ArticleUpdate(
    title: Option<string>, audience: Option<string>, tone: Option<string>, article: Option<string>)

  datatype GenerateResponse = GenerateResponse(id: int, title: string, article: string)
  datatype DeleteResponse = DeleteResponse(deleted: bool, id: int)
  /** A row as the API shows it: the body travels under the name `article`. */
  datatype ArticleOut = ArticleOut(
    id: int, title: string, audience: string, tone: string, article: string,
    createdAt: nat, updatedAt: nat)

  const MaxTitle := 200
  const MaxShort := 50

  predicate ValidGenerateRequest(r: GenerateRequest) {
    1 <= |r.title| <= MaxTitle && |r.audience| <= MaxShort && |r.tone| <= MaxShort
  }

  predicate ValidRewriteRequest(r: RewriteRequest) {
    |r.tone| <= MaxShort
  }

  /** A `str` field with a default and a maximum length: absent, or a short enough string. */
  predicate DefaultedStrOk(f: JsonField, max: nat) {
    f.Absent? || (f.Str? && |f.s| <= max)
  }

  function DefaultedStr(f: JsonField, default: string): string {
    if f.Str? then f.s else default
  }

  /** `GenerateRequest`: required title of 1 to 200 characters, audience and tone defaulted. */
  function ParseGenerateRequest(title: JsonField, audience: JsonField, tone: JsonField)
    : (r: Result<GenerateRequest>)
    ensures r.Ok? <==>
      title.Str? && 1 <= |title.s| <= 200 && DefaultedStrOk(audience, 50) && DefaultedStrOk(tone, 50)
    ensures r.Ok? ==> ValidGenerateRequest(r.value) && r.value.title == title.s
    ensures r.Ok? && audience.Absent? ==> r.value.audience == "general"
    ensures r.Ok? && audience.Str? ==> r.value.audience == audience.s
    ensures r.Ok? && tone.Absent? ==> r.value.tone == "friendly"
    ensures r.Ok? && tone.Str? ==> r.value.tone == tone.s
  {
    if !(title.Str? && 1 <= |title.s| <= MaxTitle) then Err("title")
    else if !DefaultedStrOk(audience, MaxShort) then Err("audience")
    else if !DefaultedStrOk(tone, MaxShort) then Err("tone")
    else Ok(GenerateRequest(title.s, DefaultedStr(audience, Models.DefaultAudience),
                            DefaultedStr(tone, Models.DefaultTone)))
  }

  /** `RewriteRequest`: tone defaulted to "friendly", at most 50 characters. */
  function ParseRewriteRequest(tone: JsonField): (r: Result<RewriteRequest>)
    ensures r.Ok? <==> DefaultedStrOk(tone, 50)
    ensures r.Ok? ==> ValidRewriteRequest(r.value)
    ensures r.Ok? ==> r.value.tone == (if tone.Str? then tone.s else "friendly")
  {
    if DefaultedStrOk(tone, MaxShort) then Ok(RewriteRequest(DefaultedStr(tone, Models.DefaultTone)))
    else Err("tone")
  }

  /** An optional `str | None` field defaulting to None. */
  function OptionalStr(f: JsonField): Result<Option<string>> {
    match f
    case Absent => Ok(None)
    case Null => Ok(None)
    case Str(s) => Ok(Some(s))
    case NonString => Err("not a string")
  }

  /** `ArticleUpdate`: every field optional; absent and null both read as "unchanged". */
  function ParseArticleUpdate(title: JsonField, audience: JsonField, tone: JsonField, article: JsonField)
    : (r: Result<ArticleUpdate>)
    ensures r.Ok? <==> !title.NonString? && !audience.NonString? && !tone.NonString? && !article.NonString?
    ensures r.Ok? ==> (r.value.title.None? <==> !title.Str?) && (title.Str? ==> r.value.title == Some(title.s))
    ensures r.Ok? ==> (r.value.audience.None? <==> !audience.Str?) && (audience.Str? ==> r.value.audience == Some(audience.s))
    ensures r.Ok? ==> (r.value.tone.None? <==> !tone.Str?) && (tone.Str? ==> r.value.tone == Some(tone.s))
    ensures r.Ok? ==> (r.value.article.None? <==> !article.Str?) && (article.Str? ==> r.value.article == Some(article.s))
  {
    match (OptionalStr(title), OptionalStr(audience), OptionalStr(tone), OptionalStr(article))
    case (Ok(t), Ok(a), Ok(o), Ok(c)) => Ok(ArticleUpdate(t, a, o, c))
    case (Err(_), _, _, _) => Err("title")
    case (_, Err(_), _, _) => Err("audience")
    case (_, _, Err(_), _) => Err("tone")
    case _ => Err("article")
  }

  /** `_to_article_out`: the row under its external field names. */
  function ToArticleOut(a: Models.Article): (o: ArticleOut)
    ensures ArticleOf(o) == a
  {
    ArticleOut(a.id, a.title, a.audience, a.tone, a.content, a.createdAt, a.updatedAt)
  }

  /** Reads a row back from its external form; shows that `ArticleOut` drops no column. */
  function ArticleOf(o: ArticleOut): Models.Article {
    Models.Article(o.id, o.title, o.audience, o.tone, o.article, o.createdAt, o.updatedAt)
  }
}
