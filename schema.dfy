/**
 * `init_db`: the schema step run at start-up. It creates the `vocab` table
 * when the database has none, then tries to add the `difficulty` column that
 * older databases lack, ignoring the error SQLite raises when it is there.
 */
module Schema {
  import opened Wrappers
  import opened Store

  /** The columns of `CREATE TABLE IF NOT EXISTS vocab (...)`, in order. */
  const Columns: seq<string> := ["id", "word", "meaning_en", "meaning_zh", "example", "topic", "tag", "difficulty", "created_at"]

  /** The `vocab` table as stored: its column names in order, and its rows. */
  datatype VocabTable = VocabTable(columns: seq<string>, rows: seq<Row>)

  /** `CREATE TABLE IF NOT EXISTS vocab`: `db` is `None` while the file holds no such table. */
  function CreateIfAbsent(db: Option<VocabTable>): (r: VocabTable)
    ensures db.Some? ==> r == db.value
    ensures db.None? ==> r.columns == Columns && r.rows == []
  {
    if db.Some? then db.value else VocabTable(Columns, [])
  }

  /**
   * `ALTER TABLE vocab ADD COLUMN difficulty INTEGER`: an `OperationalError`
   * (duplicate column name) when the column exists; otherwise the column is
   * appended and every existing row holds NULL in it.
   */
  function AddDifficulty(t: VocabTable): (r: Result<VocabTable>)
    ensures r.Err? <==> "difficulty" in t.columns
    ensures r.Ok? ==> r.value.columns == t.columns + ["difficulty"]
    ensures r.Ok? ==> |r.value.rows| == |t.rows|
    ensures r.Ok? ==> forall i :: 0 <= i < |t.rows| ==> r.value.rows[i] == t.rows[i].(difficulty := None)
  {
    if "difficulty" in t.columns then Err("duplicate column name: difficulty")
    else Ok(VocabTable(t.columns + ["difficulty"], seq(|t.rows|, i requires 0 <= i < |t.rows| => t.rows[i].(difficulty := None))))
  }

  /** `init_db`: create if absent, then add `difficulty`, swallowing the duplicate-column error. */
  function InitDb(db: Option<VocabTable>): (r: VocabTable)
  {
    var t := CreateIfAbsent(db);
    match AddDifficulty(t)
    case Err(_) => t
    case Ok(added) => added
  }

  /**
   * After `init_db` the table exists and has a `difficulty` column. A new
   * database gets the full schema and no rows; a table that already has the
   * column is left alone; an older table keeps all its rows, in order, with
   * NULL difficulty.
   */
  lemma InitDbSchema(db: Option<VocabTable>)
    ensures "difficulty" in InitDb(db).columns
    ensures db.None? ==> InitDb(db) == VocabTable(Columns, [])
    ensures db.Some? && "difficulty" in db.value.columns ==> InitDb(db) == db.value
    ensures db.Some? ==> |InitDb(db).rows| == |db.value.rows|
    ensures db.Some? ==> forall i :: 0 <= i < |db.value.rows| ==>
      InitDb(db).rows[i].(difficulty := None) == db.value.rows[i].(difficulty := None)
    ensures db.Some? && "difficulty" !in db.value.columns ==> forall i :: 0 <= i < |db.value.rows| ==>
      InitDb(db).rows[i] == db.value.rows[i].(difficulty := None)
  {
    assert "difficulty" in Columns by {
      assert Columns[7] == "difficulty";
    }
  }

  /** Running `init_db` again changes nothing: the step is idempotent. */
  lemma InitDbIdempotent(db: Option<VocabTable>)
    ensures InitDb(Some(InitDb(db))) == InitDb(db)
  {
    InitDbSchema(db);
  }
}
