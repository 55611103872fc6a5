/**
 * The `vocab` table and the functions that read and write it:
 * `insert_vocab_items`, `get_recent_items`, `get_random_items` and the rows
 * `export_to_csv` writes. The table is an append-only sequence of rows whose
 * ids come from SQLite's AUTOINCREMENT counter.
 */
module Store {
  import opened Wrappers
  import opened Items

  /** One row of `vocab`; `id` is the AUTOINCREMENT key, `createdAt` the insertion timestamp. */
  datatype Row = Row(
    id: nat,
    word: string,
    meaningEn: Option<string>,
    meaningZh: Option<string>,
    example: Option<string>,
    topic: Option<string>,
    tag: Option<string>,
    difficulty: Option<int>,
    createdAt: string)

  /** Rows are kept in insertion order, so their ids strictly increase. */
  predicate IdsAscending(rows: seq<Row>)
  {
    forall i, j :: 0 <= i < j < |rows| ==> rows[i].id < rows[j].id
  }

  /** An element `insert_vocab_items` can store: an object whose `word` is not null (`word TEXT NOT NULL`). */
  predicate Savable(e: Element)
  {
    e.Obj? && e.item.word.Some?
  }

  predicate AllSavable(es: seq<Element>)
  {
    forall i :: 0 <= i < |es| ==> Savable(es[i])
  }

  /** The index of the first element whose INSERT raises. */
  function FirstUnsavable(es: seq<Element>): (k: nat)
    requires !AllSavable(es)
    ensures k < |es| && !Savable(es[k]) && AllSavable(es[..k])
  {
    if !Savable(es[0]) then 0
    else
      var k := 1 + FirstUnsavable(es[1..]);
      assert es[..k] == [es[0]] + es[1..][..k - 1];
      k
  }

  /** The row one INSERT of the loop writes for a savable element. */
  function RowOf(e: Element, id: nat, topic: Option<string>, tag: Option<string>, difficulty: Option<int>, now: string): Row
    requires Savable(e)
  {
    Row(id, e.item.word.value, e.item.meaningEn, e.item.meaningZh, e.item.example, topic, tag, difficulty, now)
  }

  /** The rows a batch of savable elements becomes, with consecutive ids from `firstId`. */
  function NewRows(es: seq<Element>, firstId: nat, topic: Option<string>, tag: Option<string>, difficulty: Option<int>, now: string): (r: seq<Row>)
    requires AllSavable(es)
    ensures |r| == |es|
    ensures forall i :: 0 <= i < |es| ==> r[i] == RowOf(es[i], firstId + i, topic, tag, difficulty, now)
  {
    seq(|es|, i requires 0 <= i < |es| => RowOf(es[i], firstId + i, topic, tag, difficulty, now))
  }

  /** How a call of `insert_vocab_items` ends. */
  datatype InsertOutcome =
    | NothingToSave         // `if not items: return`
    | Saved(count: nat)     // every INSERT ran and the transaction was committed
    | RolledBack(index: nat) // the INSERT of element `index` raised; nothing was committed

  /** The outcome `insert_vocab_items` has for a batch, whatever the table holds. */
  function InsertResult(es: seq<Element>): (r: InsertOutcome)
    ensures r == NothingToSave <==> es == []
    ensures r.Saved? <==> es != [] && AllSavable(es)
    ensures r.Saved? ==> r.count == |es|
    ensures r.RolledBack? ==> r.index < |es| && !Savable(es[r.index]) && AllSavable(es[..r.index])
  {
    if es == [] then NothingToSave
    else if AllSavable(es) then Saved(|es|)
    else RolledBack(FirstUnsavable(es))
  }

  /** The `vocab` table: its rows and the AUTOINCREMENT counter (the largest id ever handed out). */
  class Table {
    var rows: seq<Row>
    var lastId: nat

    ghost predicate Valid()
      reads this
    {
      IdsAscending(rows) && forall i :: 0 <= i < |rows| ==> 1 <= rows[i].id <= lastId
    }

    /** The table as `init_db` creates it: empty. */
    constructor ()
      ensures Valid()
      ensures rows == [] && lastId == 0
    {
      rows, lastId := [], 0;
    }

    /**
     * `insert_vocab_items(items, topic, tag, difficulty)`: one INSERT per
     * element inside one transaction, committed after the loop. An element
     * whose INSERT raises ends the call before the commit, so the whole batch
     * is rolled back. `now` is the `CURRENT_TIMESTAMP` the rows receive.
     */
    method Insert(items: seq<Element>, topic: Option<string>, tag: Option<string>, difficulty: Option<int>, now: string)
      returns (outcome: InsertOutcome)
      requires Valid()
      modifies this
      ensures Valid()
      ensures outcome == InsertResult(items)
      ensures !outcome.Saved? ==> unchanged(this)
      ensures outcome.Saved? ==>
        && rows == old(rows) + NewRows(items, old(lastId) + 1, topic, tag, difficulty, now)
        && lastId == old(lastId) + |items|
    {
      if items == [] {
        return NothingToSave;
      }
      var pending: seq<Row> := [];
      var i := 0;
      while i < |items|
        invariant 0 <= i <= |items|
        invariant AllSavable(items[..i])
        invariant pending == NewRows(items[..i], lastId + 1, topic, tag, difficulty, now)
        invariant unchanged(this)
      {
        if !Savable(items[i]) {
          assert FirstUnsavable(items) == i by {
            FirstUnsavableUnique(items, i);
          }
          return RolledBack(i);
        }
        pending := pending + [RowOf(items[i], lastId + 1 + i, topic, tag, difficulty, now)];
        NewRowsStep(items, i, lastId + 1, topic, tag, difficulty, now);
        i := i + 1;
      }
      assert items[..i] == items;
      AppendKeepsOrder(rows, lastId, items, topic, tag, difficulty, now);
      rows := rows + pending;
      lastId := lastId + |items|;
      outcome := Saved(|items|);
    }
  }

  /** The rows of one more savable element extend the rows of the prefix. */
  lemma NewRowsStep(es: seq<Element>, i: nat, firstId: nat, topic: Option<string>, tag: Option<string>, difficulty: Option<int>, now: string)
    requires i < |es| && AllSavable(es[..i]) && Savable(es[i])
    ensures AllSavable(es[..i + 1])
    ensures NewRows(es[..i + 1], firstId, topic, tag, difficulty, now)
      == NewRows(es[..i], firstId, topic, tag, difficulty, now) + [RowOf(es[i], firstId + i, topic, tag, difficulty, now)]
  {
    assert es[..i + 1] == es[..i] + [es[i]];
  }

  /** A saved batch gets ids above every id in the table, so the table stays ordered and counted. */
  lemma AppendKeepsOrder(rows: seq<Row>, lastId: nat, es: seq<Element>, topic: Option<string>, tag: Option<string>, difficulty: Option<int>, now: string)
    requires IdsAscending(rows) && forall i :: 0 <= i < |rows| ==> 1 <= rows[i].id <= lastId
    requires AllSavable(es)
    ensures var all := rows + NewRows(es, lastId + 1, topic, tag, difficulty, now);
      IdsAscending(all) && forall i :: 0 <= i < |all| ==> 1 <= all[i].id <= lastId + |es|
  {
  }

  /** The first unsavable element is the one before which every element is savable. */
  lemma {:induction false} FirstUnsavableUnique(es: seq<Element>, k: nat)
    requires k < |es| && !Savable(es[k]) && AllSavable(es[..k])
    ensures FirstUnsavable(es) == k
  {
    if k > 0 {
      assert Savable(es[..k][0]);
      assert AllSavable(es[1..k]) by {
        var tail := es[1..k];
        forall i | 0 <= i < |tail|
          ensures Savable(tail[i])
        {
          assert tail[i] == es[..k][i + 1];
        }
      }
      assert es[1..][..k - 1] == es[1..k];
      FirstUnsavableUnique(es[1..], k - 1);
    }
  }

  /**
   * `LIMIT limit` over `n` rows: SQLite reads a negative limit as "no limit".
   */
  function LimitCount(limit: int, n: nat): (r: nat)
    ensures r <= n
    ensures limit < 0 ==> r == n
    ensures 0 <= limit ==> r == if limit < n then limit else n
  {
    if limit < 0 || n <= limit then n else limit
  }

  /**
   * `get_recent_items(limit)`: `ORDER BY id DESC LIMIT limit`. With the rows
   * kept in id order, these are the last rows, newest first.
   */
  function Recent(rows: seq<Row>, limit: int): (r: seq<Row>)
    requires IdsAscending(rows)
    ensures |r| == LimitCount(limit, |rows|)
    ensures forall i, j :: 0 <= i < j < |r| ==> r[i].id > r[j].id
    ensures forall x :: x in r ==> x in rows
    ensures forall i, x :: 0 <= i < |rows| && rows[i] !in r && x in r ==> rows[i].id < x.id
  {
    var n := LimitCount(limit, |rows|);
    var r := seq(n, i requires 0 <= i < n => rows[|rows| - 1 - i]);
    assert forall j :: |rows| - n <= j < |rows| ==> rows[j] == r[|rows| - 1 - j];
    r
  }

  /** `WHERE difficulty = d`: a NULL difficulty equals nothing; without `d` every row qualifies. */
  predicate Matches(row: Row, difficulty: Option<int>)
  {
    difficulty.None? || row.difficulty == difficulty
  }

  /** The rows the query of `get_random_items` draws from, in table order. */
  function Matching(rows: seq<Row>, difficulty: Option<int>): (r: seq<Row>)
    ensures forall x :: x in r <==> x in rows && Matches(x, difficulty)
    ensures difficulty.None? ==> r == rows
  {
    if rows == [] then []
    else
      var rest := Matching(rows[1..], difficulty);
      assert forall x :: x in rows <==> x == rows[0] || x in rows[1..];
      if Matches(rows[0], difficulty) then [rows[0]] + rest else rest
  }

  /** A row with a lower id than all of an ordered sequence can go in front of it. */
  lemma PrependLower(x: Row, rs: seq<Row>)
    requires IdsAscending(rs) && forall y :: y in rs ==> x.id < y.id
    ensures IdsAscending([x] + rs)
  {
    var r := [x] + rs;
    forall i, j | 0 <= i < j < |r|
      ensures r[i].id < r[j].id
    {
      assert r[j] == rs[j - 1];
      if i > 0 {
        assert r[i] == rs[i - 1];
      }
    }
  }

  /** Filtering keeps the table's id order. */
  lemma {:induction false} MatchingKeepsOrder(rows: seq<Row>, difficulty: Option<int>)
    requires IdsAscending(rows)
    ensures IdsAscending(Matching(rows, difficulty))
  {
    if rows != [] {
      var rest := Matching(rows[1..], difficulty);
      MatchingKeepsOrder(rows[1..], difficulty);
      if Matches(rows[0], difficulty) {
        forall x | x in rest
          ensures rows[0].id < x.id
        {
          var j :| 0 <= j < |rows[1..]| && rows[1..][j] == x;
          assert rows[j + 1] == x;
        }
        PrependLower(rows[0], rest);
      }
    }
  }

  /**
   * `get_random_items(limit, difficulty)`: `ORDER BY RANDOM() LIMIT limit`
   * over the matching rows, drawn one by one without replacement; which row
   * each draw takes is left open.
   */
  method SampleRandom(rows: seq<Row>, limit: int, difficulty: Option<int>) returns (r: seq<Row>)
    ensures |r| == LimitCount(limit, |Matching(rows, difficulty)|)
    ensures multiset(r) <= multiset(Matching(rows, difficulty))
    ensures forall x :: x in r ==> x in rows && Matches(x, difficulty)
  {
    var pool := Matching(rows, difficulty);
    var n := LimitCount(limit, |pool|);
    r := [];
    var left := pool;
    while |r| < n
      invariant |r| <= n
      invariant |r| + |left| == |pool|
      invariant multiset(r) + multiset(left) == multiset(pool)
      decreases n - |r|
    {
      var k :| 0 <= k < |left|;
      RemoveAt(left, k);
      r := r + [left[k]];
      left := left[..k] + left[k + 1..];
    }
    assert multiset(r) <= multiset(pool);
    forall x | x in r
      ensures x in pool
    {
      assert x in multiset(r);
      assert x in multiset(pool);
    }
  }

  /** Taking out the element at `k` leaves the rest of the multiset. */
  lemma RemoveAt(s: seq<Row>, k: nat)
    requires k < |s|
    ensures multiset(s) == multiset(s[..k] + s[k + 1..]) + multiset{s[k]}
  {
    assert s == s[..k] + [s[k]] + s[k + 1..];
  }

  /** A sample never repeats a row: a strictly ordered table holds each row once. */
  lemma SampleDistinct(rows: seq<Row>, difficulty: Option<int>, r: seq<Row>)
    requires IdsAscending(rows)
    requires multiset(r) <= multiset(Matching(rows, difficulty))
    ensures forall i, j :: 0 <= i < j < |r| ==> r[i].id != r[j].id
  {
    var pool := Matching(rows, difficulty);
    MatchingKeepsOrder(rows, difficulty);
    forall i, j | 0 <= i < j < |r|
      ensures r[i].id != r[j].id
    {
      DrawnOnce(pool, r, i, j);
    }
  }

  /** Two draws from a strictly ordered pool, neither taken more often than it is stored, differ in id. */
  lemma DrawnOnce(pool: seq<Row>, r: seq<Row>, i: nat, j: nat)
    requires IdsAscending(pool) && multiset(r) <= multiset(pool)
    requires i < j < |r|
    ensures r[i].id != r[j].id
  {
    assert r[i] in multiset(r) && r[j] in multiset(r);
    assert r[i] in pool && r[j] in pool;
    var a :| 0 <= a < |pool| && pool[a] == r[i];
    OccursOnce(pool, a);
    CountedTwice(r, i, j);
    assert r[i] != r[j];
    SameIdSameRow(pool, r[i], r[j]);
  }

  /** An element that appears at two positions is counted twice. */
  lemma CountedTwice(s: seq<Row>, i: nat, j: nat)
    requires i < j < |s|
    ensures s[i] == s[j] ==> multiset(s)[s[i]] >= 2
  {
    assert s == s[..j] + s[j..];
    assert s[..j][i] == s[i] && s[j..][0] == s[j];
  }

  /** In a strictly ordered table a row occurs once. */
  lemma OccursOnce(pool: seq<Row>, a: nat)
    requires IdsAscending(pool) && a < |pool|
    ensures multiset(pool)[pool[a]] == 1
  {
    assert pool == pool[..a] + [pool[a]] + pool[a + 1..];
    assert pool[a] !in pool[..a] && pool[a] !in pool[a + 1..] by {
      assert forall x :: x in pool[..a] ==> x.id < pool[a].id;
      assert forall x :: x in pool[a + 1..] ==> x.id > pool[a].id;
    }
  }

  /** In a strictly ordered table an id names one row. */
  lemma SameIdSameRow(pool: seq<Row>, x: Row, y: Row)
    requires IdsAscending(pool) && x in pool && y in pool
    ensures x.id == y.id ==> x == y
  {
    var a :| 0 <= a < |pool| && pool[a] == x;
    var b :| 0 <= b < |pool| && pool[b] == y;
  }

  /** The eight columns of the exported file, in order. */
  const Header: seq<string> := ["word", "meaning_en", "meaning_zh", "example", "topic", "tag", "difficulty", "created_at"]

  /** A selected value as the CSV writer receives it. */
  datatype Cell = Str(text: string) | Integer(value: int) | Null

  function TextCell(s: Option<string>): Cell
  {
    if s.None? then Null else Str(s.value)
  }

  /** `SELECT word, meaning_en, meaning_zh, example, topic, tag, difficulty, created_at` of one row. */
  function Record(row: Row): (r: seq<Cell>)
    ensures |r| == |Header|
  {
    [Str(row.word), TextCell(row.meaningEn), TextCell(row.meaningZh), TextCell(row.example),
     TextCell(row.topic), TextCell(row.tag), if row.difficulty.None? then Null else Integer(row.difficulty.value),
     Str(row.createdAt)]
  }

  /** What `export_to_csv` writes: the header line, then one record per row. */
  datatype Export = Export(header: seq<string>, records: seq<seq<Cell>>)

  /** `export_to_csv`: every row once, `ORDER BY id`, which is table order. */
  function ExportTable(rows: seq<Row>): (r: Export)
    ensures r.header == Header && |r.header| == 8
    ensures |r.records| == |rows|
    ensures forall i :: 0 <= i < |rows| ==> r.records[i] == Record(rows[i])
  {
    Export(Header, seq(|rows|, i requires 0 <= i < |rows| => Record(rows[i])))
  }

  /**
   * The export lists the rows in the opposite order to `get_recent_items`
   * with no limit: ascending rather than descending ids.
   */
  lemma ExportReversesRecent(rows: seq<Row>)
    requires IdsAscending(rows)
    ensures |Recent(rows, -1)| == |rows|
    ensures forall i :: 0 <= i < |rows| ==> ExportTable(rows).records[i] == Record(Recent(rows, -1)[|rows| - 1 - i])
  {
    forall i | 0 <= i < |rows|
      ensures ExportTable(rows).records[i] == Record(Recent(rows, -1)[|rows| - 1 - i])
    {
      var k := |rows| - 1 - i;
      assert Recent(rows, -1)[k] == rows[|rows| - 1 - k];
    }
  }

  /** Right after a batch is saved, the most recent rows are that batch, newest first. */
  lemma RecentAfterInsert(rows: seq<Row>, batch: seq<Row>)
    requires IdsAscending(rows + batch)
    ensures Recent(rows + batch, |batch|) == seq(|batch|, i requires 0 <= i < |batch| => batch[|batch| - 1 - i])
  {
  }
}
