/** Tables of the school database as the repository layer sees them: rows by id, text columns,
    and which columns the list endpoints can show. */
module Tables {

  /** The columns of the three tables, without the id. */
  datatype Column =
    | FirstName | LastName | Email | Class | Subject | Username | UserCreatedAt | InactiveStatus | Role
    | Password | PasswordChangedAt | ResetCode | ResetCodeExpires | PhotoS3Key

  type Row = map<Column, string>
  type Rows = map<int, Row>
  type Db = map<string, Rows>

  const STUDENTS := "students"
  const TEACHERS := "teachers"
  const EXECS := "execs"

  predicate IsTable(t: string) {
    t == STUDENTS || t == TEACHERS || t == EXECS
  }

  function RowsOf(db: Db, t: string): Rows {
    if t in db then db[t] else map[]
  }

  /** Columns that the list query of a table selects. */
  function SelectedColumns(t: string): set<Column> {
    if t == STUDENTS then {FirstName, LastName, Email, Class}
    else if t == TEACHERS then {FirstName, LastName, Email, Class, Subject}
    else {FirstName, LastName, Email, Username, UserCreatedAt, InactiveStatus, Role}
  }

  /** Columns that AddFilters and AddSorting may name in any list query. */
  const FilterColumns: set<Column> := {FirstName, LastName, Email, Class, Subject}

  function ListColumns(t: string): set<Column> {
    SelectedColumns(t) + FilterColumns
  }

  function Restrict(row: Row, columns: set<Column>): Row {
    map c | c in row && c in columns :: row[c]
  }

  /** All that a list query of table t can depend on. */
  function Visible(db: Db, t: string): Rows {
    map id | id in RowsOf(db, t) :: Restrict(RowsOf(db, t)[id], ListColumns(t))
  }

  /** UPDATE t SET columns, and some columns to NULL, WHERE id = ?; without effect when the row is missing.
      NULL is the absence of a value. */
  function SetColumns(db: Db, t: string, id: int, columns: Row, nulls: set<Column>): Db {
    if t in db && id in db[t] then db[t := db[t][id := (db[t][id] + columns) - nulls]] else db
  }

  /** A list sees every row, and of its selected columns what they hold. */
  lemma VisibleShows(db: Db, t: string, id: int, c: Column)
    ensures id in Visible(db, t) <==> t in db && id in db[t]
    ensures id in Visible(db, t) ==>
              && (c in Visible(db, t)[id] <==> c in db[t][id] && (c in SelectedColumns(t) || c in FilterColumns))
              && (c in Visible(db, t)[id] ==> Visible(db, t)[id][c] == db[t][id][c])
  {
    assert Visible(db, t).Keys == RowsOf(db, t).Keys;
  }

  /** An UPDATE reaches the columns it names, of its row. */
  lemma SetColumnsCells(db: Db, t: string, id: int, columns: Row, nulls: set<Column>, u: string, j: int, c: Column)
    ensures var after := SetColumns(db, t, id, columns, nulls);
            && (u in after <==> u in db)
            && (u in db ==> (j in after[u] <==> j in db[u]))
            && (u in db && j in db[u] ==>
                  if (u, j) == (t, id) && c in nulls then c !in after[u][j]
                  else if (u, j) == (t, id) && c in columns then c in after[u][j] && after[u][j][c] == columns[c]
                  else (c in after[u][j] <==> c in db[u][j]) && (c in db[u][j] ==> after[u][j][c] == db[u][j][c]))
  {
  }

  /** Columns written without a cache invalidation: photo confirm and delete, password update,
      reset-code issue and use. */
  const HiddenColumns: set<Column> := {PhotoS3Key, Password, PasswordChangedAt, ResetCode, ResetCodeExpires}

  lemma HiddenColumnsAreNotListed(t: string)
    requires IsTable(t)
    ensures HiddenColumns !! ListColumns(t)
  {
  }

  /** A write to hidden columns of any row changes nothing that any list can show. */
  lemma HiddenWriteKeepsVisible(db: Db, t: string, id: int, columns: Row, nulls: set<Column>, other: string)
    requires IsTable(t) && columns.Keys + nulls <= HiddenColumns
    ensures Visible(SetColumns(db, t, id, columns, nulls), other) == Visible(db, other)
  {
    HiddenColumnsAreNotListed(t);
    var after := SetColumns(db, t, id, columns, nulls);
    if other == t {
      forall i | i in RowsOf(db, t)
        ensures i in RowsOf(after, t)
        ensures Restrict(RowsOf(after, t)[i], ListColumns(t)) == Restrict(RowsOf(db, t)[i], ListColumns(t))
      {
      }
      assert RowsOf(after, t).Keys == RowsOf(db, t).Keys;
    } else {
      assert RowsOf(after, other) == RowsOf(db, other);
    }
  }

  /** A write to a single table leaves what the lists of the other tables can show. */
  lemma WriteKeepsOtherTables(db: Db, t: string, rows: Rows, other: string)
    requires other != t
    ensures Visible(db[t := rows], other) == Visible(db, other)
  {
    assert RowsOf(db[t := rows], other) == RowsOf(db, other);
  }
}
