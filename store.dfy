/**
 * The article table as the handlers see it through their database session:
 * rows keyed by their integer primary key, and the clock that stamps them.
 * Each mutating method is one `add`/`delete`/field assignment followed by a
 * commit; a handler that fails before committing leaves the store as it was.
 */
module Store {
  import opened Basics
  import opened Text
  import opened Models

  /** Every present row is stored under its own id. */
  predicate KeyedById(rows: map<int, Article>) {
    forall id :: id in rows ==> rows[id].id == id
  }

  /** Across a commit, surviving rows keep `created_at` and never move `updated_at` back. */
  ghost predicate Evolved(before: map<int, Article>, after: map<int, Article>) {
    forall id :: id in before && id in after ==>
      after[id].createdAt == before[id].createdAt && after[id].updatedAt >= before[id].updatedAt
  }

  /** Every key lies in `[1, hi]`. */
  predicate KeysWithin(keys: set<int>, hi: int) {
    forall k :: k in keys ==> 1 <= k <= hi
  }

  /** The rowid rule: one more than the largest id present, or 1 in an empty table. */
  predicate IsNextRowId(keys: set<int>, id: int) {
    id !in keys && (forall k :: k in keys ==> k < id) && (id == 1 || id - 1 in keys)
  }

  /** The largest key in `[1, hi]`, or 0 when there is none. */
  function TopId(keys: set<int>, hi: int): (t: int)
    ensures t == 0 || (1 <= t <= hi && t in keys)
    ensures forall k :: t < k <= hi ==> k !in keys
    decreases hi
  {
    if hi < 1 then 0 else if hi in keys then hi else TopId(keys, hi - 1)
  }

  /**
   * The id SQLite gives an inserted row when the primary key is an
   * INTEGER PRIMARY KEY declared without AUTOINCREMENT. The id of a deleted
   * highest row is therefore handed out again. `hi` bounds the ids present.
   */
  function NextRowId(keys: set<int>, hi: int): (id: int)
    requires KeysWithin(keys, hi)
    ensures IsNextRowId(keys, id) && 1 <= id
  {
    TopId(keys, hi) + 1
  }

  /** Under `KeysWithin`, the rowid rule leaves no choice: the bound used to find the id does not matter. */
  lemma NextRowIdUnique(keys: set<int>, hi: int, id: int)
    requires KeysWithin(keys, hi) && IsNextRowId(keys, id)
    ensures id == NextRowId(keys, hi)
  {
    var n := NextRowId(keys, hi);
    assert n == 1 || n - 1 in keys;
  }

  /**
   * Ids are not monotonic across deletes: once the newest row `m` is
   * deleted, the next insert is given `m` again (when `m - 1` is present
   * or `m` is 1).
   */
  lemma NewestIdReused(keys: set<int>, hi: int, m: int)
    requires KeysWithin(keys, hi) && m in keys && (forall k :: k in keys ==> k <= m)
    requires m == 1 || m - 1 in keys
    ensures NextRowId(keys, hi) == m + 1
    ensures NextRowId(keys - {m}, hi) == m
  {
    NextRowIdUnique(keys, hi, m + 1);
    NextRowIdUnique(keys - {m}, hi, m);
  }

  /**
   * Whatever ids lie below it, deleting the newest row `m` brings the next
   * id down to at most `m`: an insert after the delete never gets a larger
   * id than the deleted row had.
   */
  lemma NewestDeletedBound(keys: set<int>, hi: int, m: int)
    requires KeysWithin(keys, hi) && m in keys && (forall k :: k in keys ==> k <= m)
    ensures NextRowId(keys - {m}, hi) <= m
  {
    var n := NextRowId(keys - {m}, hi);
    assert n == 1 || n - 1 in keys - {m};
  }

  /**
   * `r` lists the rows with ids in `[1, hi]`, each once, highest id first:
   * ids strictly decrease, every entry is a stored row, and every stored
   * row in range is listed.
   */
  predicate NewestFirstOf(rows: map<int, Article>, hi: int, r: seq<Article>) {
    && (forall i, j :: 0 <= i < j < |r| ==> r[i].id > r[j].id)
    && (forall i :: 0 <= i < |r| ==> 1 <= r[i].id <= hi && r[i].id in rows && rows[r[i].id] == r[i])
    && (forall id :: id in rows && 1 <= id <= hi ==> rows[id] in r)
  }

  /** The rows with ids in `[1, hi]`, highest id first (`ORDER BY id DESC`). */
  function NewestFirst(rows: map<int, Article>, hi: int): (r: seq<Article>)
    requires KeyedById(rows)
    ensures NewestFirstOf(rows, hi, r)
    decreases hi
  {
    if hi < 1 then []
    else
      var rest := NewestFirst(rows, hi - 1);
      if hi in rows then
        NewestFirstPrepend(rows, hi, rest);
        [rows[hi]] + rest
      else
        NewestFirstSkip(rows, hi, rest);
        rest
  }

  lemma NewestFirstPrepend(rows: map<int, Article>, hi: int, rest: seq<Article>)
    requires KeyedById(rows) && 1 <= hi && hi in rows && NewestFirstOf(rows, hi - 1, rest)
    ensures NewestFirstOf(rows, hi, [rows[hi]] + rest)
  {
    var r := [rows[hi]] + rest;
    assert forall i :: 1 <= i < |r| ==> r[i] == rest[i - 1];
    forall id | id in rows && 1 <= id <= hi ensures rows[id] in r {
      if id == hi {
        assert r[0] == rows[id];
      } else {
        var k :| 0 <= k < |rest| && rest[k] == rows[id];
        assert r[k + 1] == rows[id];
      }
    }
  }

  lemma NewestFirstSkip(rows: map<int, Article>, hi: int, rest: seq<Article>)
    requires 1 <= hi && hi !in rows && NewestFirstOf(rows, hi - 1, rest)
    ensures NewestFirstOf(rows, hi, rest)
  {
  }

  class ArticleStore {
    var rows: map<int, Article>
    /**
     * Ticks of the clock that stands in for `datetime.utcnow`. Every insert
     * ticks it once, so it also bounds the ids present.
     */
    var clock: nat

    ghost predicate Valid()
      reads this
    {
      && KeyedById(rows)
      && KeysWithin(rows.Keys, clock)
      && forall id :: id in rows ==> RowOk(rows[id]) && rows[id].updatedAt <= clock
    }

    constructor ()
      ensures Valid() && rows == map[] && clock == 0
    {
      rows := map[];
      clock := 0;
    }

    /** `db.get(Article, id)`. */
    method Find(id: int) returns (r: Option<Article>)
      ensures r.Some? <==> id in rows
      ensures r.Some? ==> r.value == rows[id]
    {
      r := if id in rows then Some(rows[id]) else None;
    }

    /** `db.add(Article(...)); db.commit()`: a fresh row stamped with the next tick. */
    method Add(title: string, audience: string, tone: string, content: string) returns (a: Article)
      requires Valid() && !AllWs(content)
      modifies this
      ensures Valid() && Evolved(old(rows), rows)
      ensures clock == old(clock) + 1
      ensures a.id == NextRowId(old(rows).Keys, old(clock)) && a.id !in old(rows)
      ensures a == NewRow(a.id, title, Some(audience), Some(tone), content, clock)
      ensures rows == old(rows)[a.id := a]
    {
      var id := NextRowId(rows.Keys, clock);
      clock := clock + 1;
      a := NewRow(id, title, Some(audience), Some(tone), content, clock);
      rows := rows[id := a];
    }

    /** Field assignments on the loaded row `id`, then `db.commit()`. */
    method Commit(id: int, edited: Columns)
      requires Valid() && id in rows && !AllWs(edited.content)
      modifies this
      ensures Valid() && Evolved(old(rows), rows)
      ensures clock == old(clock) + 1
      ensures rows == old(rows)[id := Refreshed(old(rows)[id], edited, clock)]
    {
      clock := clock + 1;
      rows := rows[id := Refreshed(rows[id], edited, clock)];
    }

    /** `db.delete(a); db.commit()`. */
    method Delete(id: int)
      requires Valid() && id in rows
      modifies this
      ensures Valid() && Evolved(old(rows), rows)
      ensures clock == old(clock)
      ensures rows == old(rows) - {id}
    {
      rows := rows - {id};
    }
  }
}
