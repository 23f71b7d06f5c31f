/**
 * The `articles` table: one row per article. Timestamps are ticks of an
 * abstract monotone clock standing in for `datetime.utcnow`.
 */
module Models {
  import opened Basics
  import opened Text

  const DefaultAudience: string := "general"
  const DefaultTone: string := "friendly"

  datatype Article = Article(
    id: int,
    title: string,
    audience: string,
    tone: string,
    content: string,
    createdAt: nat,
    updatedAt: nat)

  /** The four columns a handler may edit; `id` and the timestamps are not among them. */
  datatype Columns = Columns(title: string, audience: string, tone: string, content: string)

  function ColumnsOf(a: Article): Columns {
    Columns(a.title, a.audience, a.tone, a.content)
  }

  /**
   * A row as inserted: `audience` and `tone` fall back to their column
   * defaults when not supplied, and both timestamps take the insert time.
   */
  function NewRow(id: int, title: string, audience: Option<string>, tone: Option<string>,
                  content: string, now: nat): (a: Article)
    ensures a.id == id && a.title == title && a.content == content
    ensures a.audience == (if audience.Some? then audience.value else "general")
    ensures a.tone == (if tone.Some? then tone.value else "friendly")
    ensures a.createdAt == now && a.updatedAt == now
  {
    Article(id, title, audience.GetOr(DefaultAudience), tone.GetOr(DefaultTone), content, now, now)
  }

  /**
   * The row committed after a handler assigned the columns of `edited` on
   * the loaded row `before`. `created_at` has no on-update rule and is
   * kept; `updated_at` is refreshed to `now` only if an UPDATE is emitted,
   * which happens only when some column value actually changed.
   */
  function Refreshed(before: Article, edited: Columns, now: nat): (a: Article)
    ensures a.id == before.id && a.createdAt == before.createdAt
    ensures ColumnsOf(a) == edited
    ensures edited == ColumnsOf(before) ==> a == before
    ensures edited != ColumnsOf(before) ==> a.updatedAt == now
  {
    if edited == ColumnsOf(before) then before
    else Article(before.id, edited.title, edited.audience, edited.tone, edited.content,
                 before.createdAt, now)
  }

  /** What every stored row satisfies: non-blank content and ordered timestamps. */
  predicate RowOk(a: Article) {
    !AllWs(a.content) && a.createdAt <= a.updatedAt
  }
}
