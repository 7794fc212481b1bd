/** The INSERT builders: the statement text is made from the db tags of a model's fields, the argument
    list from the field values, in two separate loops. */
module InsertText {
  import opened Strings
  import opened QueryText

  const OMIT := ",omitempty"

  /** strings.TrimSuffix(tag, ",omitempty"). */
  function Trimmed(tag: string): string {
    if |tag| >= |OMIT| && tag[|tag| - |OMIT|..] == OMIT then tag[..|tag| - |OMIT|] else tag
  }

  predicate Insertable(tag: string) {
    Trimmed(tag) != "" && Trimmed(tag) != "id"
  }

  /** The fields that are inserted, by position. */
  function Positions(tags: seq<string>): (ps: seq<nat>)
    ensures forall k :: 0 <= k < |ps| ==> ps[k] < |tags| && Insertable(tags[ps[k]])
  {
    if tags == [] then []
    else Positions(tags[..|tags| - 1]) + (if Insertable(tags[|tags| - 1]) then [|tags| - 1] else [])
  }

  lemma {:induction false} PositionsComplete(tags: seq<string>)
    ensures forall j, k :: 0 <= j < k < |Positions(tags)| ==> Positions(tags)[j] < Positions(tags)[k]
    ensures forall i :: 0 <= i < |tags| && Insertable(tags[i]) ==> i in Positions(tags)
  {
    if tags != [] {
      PositionsComplete(tags[..|tags| - 1]);
    }
  }

  function Columns(tags: seq<string>): seq<string> {
    var ps := Positions(tags);
    seq(|ps|, k requires 0 <= k < |ps| => Trimmed(tags[ps[k]]))
  }

  function Values<T>(tags: seq<string>, fields: seq<T>): seq<T>
    requires |fields| == |tags|
  {
    var ps := Positions(tags);
    seq(|ps|, k requires 0 <= k < |ps| => fields[ps[k]])
  }

  function Join(xs: seq<string>): string {
    if xs == [] then ""
    else if |xs| == 1 then xs[0]
    else Join(xs[..|xs| - 1]) + ", " + xs[|xs| - 1]
  }

  function Marks(n: nat): seq<string> {
    seq(n, _ => "?")
  }

  function InsertFor(table: string, columns: seq<string>): string {
    "INSERT INTO " + table + " (" + Join(columns) + ") VALUES (" + Join(Marks(|columns|)) + ")"
  }

  lemma PositionsStep(tags: seq<string>, i: nat)
    requires i < |tags|
    ensures Columns(tags[..i + 1]) == Columns(tags[..i]) + (if Insertable(tags[i]) then [Trimmed(tags[i])] else [])
  {
    assert tags[..i + 1][..i] == tags[..i];
  }

  lemma ValuesStep<T>(tags: seq<string>, fields: seq<T>, i: nat)
    requires i < |tags| == |fields|
    ensures Values(tags[..i + 1], fields[..i + 1])
         == Values(tags[..i], fields[..i]) + (if Insertable(tags[i]) then [fields[i]] else [])
  {
    assert tags[..i + 1][..i] == tags[..i];
  }

  lemma JoinMore(xs: seq<string>, x: string)
    ensures Join(xs + [x]) == if xs == [] then x else Join(xs) + ", " + x
  {
    assert (xs + [x])[..|xs|] == xs;
  }

  lemma JoinEmptyIff(xs: seq<string>)
    requires forall x :: x in xs ==> x != ""
    ensures Join(xs) == "" <==> xs == []
  {
    if |xs| == 1 {
      assert xs[0] in xs;
    }
  }

  /** One step of the loop, on both texts. */
  lemma AppendColumn(before: seq<string>, tag: string)
    requires forall x :: x in before ==> x != ""
    ensures Join(before + [tag]) == if Join(before) != "" then Join(before) + ", " + tag else Join(before) + tag
    ensures Join(Marks(|before| + 1))
         == if Join(before) != "" then Join(Marks(|before|)) + ", " + "?" else Join(Marks(|before|)) + "?"
  {
    JoinEmptyIff(before);
    JoinMore(before, tag);
    JoinMore(Marks(|before|), "?");
    assert Marks(|before| + 1) == Marks(|before|) + ["?"];
  }

  /** The loop over the fields. */
  method ColumnTexts(tags: seq<string>) returns (columns: string, placeholders: string)
    ensures columns == Join(Columns(tags)) && placeholders == Join(Marks(|Columns(tags)|))
  {
    columns, placeholders := "", "";
    var i := 0;
    while i < |tags|
      invariant 0 <= i <= |tags|
      invariant columns == Join(Columns(tags[..i])) && placeholders == Join(Marks(|Columns(tags[..i])|))
    {
      columns, placeholders := AddColumn(columns, placeholders, Trimmed(tags[i]), Columns(tags[..i]));
      PositionsStep(tags, i);
      i := i + 1;
    }
    assert tags[..i] == tags;
  }

  /** One turn of the loop. */
  method AddColumn(columns: string, placeholders: string, tag: string, ghost before: seq<string>)
    returns (c: string, p: string)
    requires (forall x :: x in before ==> x != "") && columns == Join(before) && placeholders == Join(Marks(|before|))
    ensures var after := before + (if tag != "" && tag != "id" then [tag] else []);
            c == Join(after) && p == Join(Marks(|after|))
  {
    c, p := columns, placeholders;
    if tag != "" && tag != "id" {
      AppendColumn(before, tag);
      if c != "" {
        c, p := c + ", ", p + ", ";
      }
      c, p := c + tag, p + "?";
    } else {
      assert before + [] == before;
    }
  }

  method GenerateInsertQuery(table: string, tags: seq<string>) returns (query: string)
    ensures query == InsertFor(table, Columns(tags))
  {
    var columns, placeholders := ColumnTexts(tags);
    query := "INSERT INTO " + table + " (" + columns + ") VALUES (" + placeholders + ")";
  }

  method GetStructValues<T>(tags: seq<string>, fields: seq<T>) returns (values: seq<T>)
    requires |fields| == |tags|
    ensures values == Values(tags, fields)
  {
    values := [];
    var i := 0;
    while i < |tags|
      invariant 0 <= i <= |tags|
      invariant values == Values(tags[..i], fields[..i])
    {
      var tag := Trimmed(tags[i]);
      ValuesStep(tags, fields, i);
      if tag != "" && tag != "id" {
        values := values + [fields[i]];
      }
      i := i + 1;
    }
    assert tags[..i] == tags && fields[..i] == fields;
  }

  // ---------------------------------------------------------------- reading the statement

  /** Reads a list with ", " between its items. */
  function ReadList(s: string): Option<seq<string>>
    decreases |s|
  {
    CutShrinks(s, ',');
    var (a, rest) := Cut(s, ',');
    if rest.None? then Some([a])
    else if rest.value == "" || rest.value[0] != ' ' then None
    else
      var others := ReadList(rest.value[1..]);
      if others.None? then None else Some([a] + others.value)
  }

  /** Reads the inside of a pair of parentheses, which may be empty. */
  function ReadNames(s: string): Option<seq<string>> {
    if s == "" then Some([]) else ReadList(s)
  }

  datatype Insert = Insert(table: string, columns: seq<string>, marks: seq<string>)

  const INTO := "INSERT INTO "

  const VALUES := " VALUES ("

  /** Reads VALUES and a list in parentheses that ends the statement. */
  function ReadValues(s: string): Option<seq<string>> {
    if !(VALUES <= s) then None
    else
      var (marks, end) := Cut(s[|VALUES|..], ')');
      if end != Some("") then None else ReadNames(marks)
  }

  /** Reads INSERT INTO table (columns) VALUES (marks). */
  function ReadInsert(s: string): Option<Insert> {
    if !(INTO <= s) then None
    else
      var (head, afterHead) := Cut(s[|INTO|..], '(');
      if afterHead.None? || head == "" || head[|head| - 1] != ' ' then None
      else
        var (columns, afterColumns) := Cut(afterHead.value, ')');
        if afterColumns.None? || ReadNames(columns).None? || ReadValues(afterColumns.value).None? then None
        else Some(Insert(head[..|head| - 1], ReadNames(columns).value, ReadValues(afterColumns.value).value))
  }

  lemma {:induction false} ReadListOfJoin(xs: seq<string>)
    requires xs != [] && forall x :: x in xs ==> ',' !in x
    ensures ReadList(Join(xs)) == Some(xs)
    decreases |xs|
  {
    if |xs| == 1 {
      assert xs == [xs[0]] && xs[0] in xs;
      CutNone(xs[0], ',');
    } else {
      JoinFront(xs);
      var rest := Join(xs[1..]);
      assert Join(xs) == xs[0] + [','] + ([' '] + rest);
      assert xs[0] in xs;
      CutAt(xs[0], ',', [' '] + rest);
      assert ([' '] + rest)[1..] == rest;
      ReadListOfJoin(xs[1..]);
      assert xs == [xs[0]] + xs[1..];
    }
  }

  lemma ReadNamesOfJoin(xs: seq<string>)
    requires forall x :: x in xs ==> x != "" && ',' !in x
    ensures ReadNames(Join(xs)) == Some(xs)
  {
    JoinEmptyIff(xs);
    if xs != [] {
      ReadListOfJoin(xs);
    }
  }

  lemma {:induction false} JoinFront(xs: seq<string>)
    requires |xs| >= 2
    ensures Join(xs) == xs[0] + ", " + Join(xs[1..])
    decreases |xs|
  {
    var n := |xs| - 1;
    if n > 1 {
      JoinFront(xs[..n]);
      assert xs[..n][1..] == xs[1..][..n - 1];
      assert Join(xs[1..]) == Join(xs[1..][..n - 1]) + ", " + xs[n];
    } else {
      assert xs[..1] == [xs[0]] && xs[1..] == [xs[1]];
    }
  }

  lemma {:induction false} JoinHasNo(xs: seq<string>, c: char)
    requires c != ',' && c != ' ' && forall x :: x in xs ==> c !in x
    ensures c !in Join(xs)
    decreases |xs|
  {
    if |xs| == 1 {
      assert xs[0] in xs;
    } else if |xs| > 1 {
      assert xs[|xs| - 1] in xs;
      JoinHasNo(xs[..|xs| - 1], c);
    }
  }

  predicate PlainName(x: string) {
    ',' !in x && '(' !in x && ')' !in x
  }

  lemma ValuesRead(n: nat)
    ensures ReadValues(VALUES + Join(Marks(n)) + ")") == Some(Marks(n))
  {
    var marks := Join(Marks(n));
    var s := VALUES + marks + ")";
    assert s[|VALUES|..] == marks + [')'] + "";
    JoinHasNo(Marks(n), ')');
    CutAt(marks, ')', "");
    ReadNamesOfJoin(Marks(n));
  }

  /** The statement names the table, the columns in order, and one mark per column. */
  lemma InsertReads(table: string, columns: seq<string>)
    requires PlainName(table) && forall x :: x in columns ==> PlainName(x) && x != ""
    ensures ReadInsert(InsertFor(table, columns)) == Some(Insert(table, columns, Marks(|columns|)))
  {
    var values := VALUES + Join(Marks(|columns|)) + ")";
    var head := table + " ";
    var list := Join(columns);
    InsertShape(table, list, Join(Marks(|columns|)));
    assert InsertFor(table, columns) == INTO + (head + ['('] + (list + [')'] + values));
    CutAt(head, '(', list + [')'] + values);
    JoinHasNo(columns, ')');
    CutAt(list, ')', values);
    ReadNamesOfJoin(columns);
    ValuesRead(|columns|);
    assert head[..|head| - 1] == table;
  }

  lemma InsertShape(table: string, list: string, marks: string)
    ensures "INSERT INTO " + table + " (" + list + ") VALUES (" + marks + ")"
         == INTO + ((table + " ") + ['('] + (list + [')'] + (VALUES + marks + ")")))
  {
    assert " (" == " " + ['('];
    assert ") VALUES (" == [')'] + VALUES;
  }

  lemma ColumnsArePlain(tags: seq<string>)
    requires forall i :: 0 <= i < |tags| ==> PlainName(Trimmed(tags[i]))
    ensures forall x :: x in Columns(tags) ==> PlainName(x) && x != ""
  {
    forall k | 0 <= k < |Columns(tags)| ensures PlainName(Columns(tags)[k]) && Columns(tags)[k] != "" {
      assert Columns(tags)[k] == Trimmed(tags[Positions(tags)[k]]);
    }
  }

  /** The k-th argument is the value of the field whose tag is the k-th column. */
  lemma ArgumentsFollowColumns<T>(tags: seq<string>, fields: seq<T>)
    requires |fields| == |tags|
    ensures |Columns(tags)| == |Values(tags, fields)| == |Marks(|Columns(tags)|)| == |Positions(tags)|
    ensures forall k :: 0 <= k < |Columns(tags)| ==>
              && Columns(tags)[k] == Trimmed(tags[Positions(tags)[k]])
              && Values(tags, fields)[k] == fields[Positions(tags)[k]]
  {
  }

  /** Insert alignment: for every field list, also one with nothing to insert, the statement that
      GenerateInsertQuery makes has as many marks as GetStructValues gives arguments; the k-th argument
      is the value of the field whose tag is the k-th column; no field is inserted twice; and every
      field with a tag other than "id" is inserted. */
  lemma InsertAlignment<T>(table: string, tags: seq<string>, fields: seq<T>)
    requires |fields| == |tags| && PlainName(table)
    requires forall i :: 0 <= i < |tags| ==> PlainName(Trimmed(tags[i]))
    ensures ReadInsert(InsertFor(table, Columns(tags)))
         == Some(Insert(table, Columns(tags), Marks(|Values(tags, fields)|)))
    ensures |Columns(tags)| == |Values(tags, fields)| == |Positions(tags)|
    ensures forall k :: 0 <= k < |Columns(tags)| ==>
              && Columns(tags)[k] == Trimmed(tags[Positions(tags)[k]])
              && Values(tags, fields)[k] == fields[Positions(tags)[k]]
    ensures forall j, k :: 0 <= j < k < |Positions(tags)| ==> Positions(tags)[j] < Positions(tags)[k]
    ensures forall i :: 0 <= i < |tags| ==> (Insertable(tags[i]) <==> i in Positions(tags))
  {
    PositionsComplete(tags);
    ColumnsArePlain(tags);
    ArgumentsFollowColumns(tags, fields);
    InsertReads(table, Columns(tags));
  }

  // ---------------------------------------------------------------- the three models

  function Tag(column: string): string {
    column + OMIT
  }

  /** The db tags of a model: its id, then its other columns. */
  function ModelTags(columns: seq<string>): (tags: seq<string>)
    ensures |tags| == |columns| + 1
  {
    if columns == [] then [Tag("id")] else ModelTags(columns[..|columns| - 1]) + [Tag(columns[|columns| - 1])]
  }

  lemma TrimsTag(name: string)
    ensures Trimmed(Tag(name)) == name
  {
  }

  lemma {:induction false} ModelColumns(columns: seq<string>)
    requires ColumnNames(columns)
    ensures Columns(ModelTags(columns)) == columns
  {
    if columns == [] {
      TrimsTag("id");
      assert Positions([Tag("id")]) == Positions([Tag("id")][..0]);
    } else {
      var n := |columns| - 1;
      ModelColumns(columns[..n]);
      TrimsTag(columns[n]);
      assert ColumnName(columns[n]);
      OneMoreTag(ModelTags(columns[..n]), Tag(columns[n]));
      assert columns == columns[..n] + [columns[n]];
    }
  }

  lemma OneMoreTag(tags: seq<string>, tag: string)
    ensures Columns(tags + [tag]) == Columns(tags) + (if Insertable(tag) then [Trimmed(tag)] else [])
  {
    PositionsStep(tags + [tag], |tags|);
    assert (tags + [tag])[..|tags|] == tags && (tags + [tag])[..|tags| + 1] == tags + [tag];
  }

  const PERSON_COLUMNS := ["first_name", "last_name", "email"]

  const STUDENT_COLUMNS := PERSON_COLUMNS + ["class", "photo_s3_key"]

  const TEACHER_COLUMNS := PERSON_COLUMNS + ["class", "subject", "photo_s3_key"]

  const LOGIN_COLUMNS := ["username", "password", "password_changed_at"]

  const RESET_COLUMNS := ["user_created_at", "password_reset_code", "password_reset_code_expires"]

  const STATUS_COLUMNS := ["inactive_status", "role", "photo_s3_key"]

  const EXEC_COLUMNS := PERSON_COLUMNS + LOGIN_COLUMNS + (RESET_COLUMNS + STATUS_COLUMNS)

  predicate ColumnName(x: string) {
    PlainName(x) && x != "" && x != "id"
  }

  ghost predicate ColumnNames(columns: seq<string>) {
    forall i :: 0 <= i < |columns| ==> ColumnName(columns[i])
  }

  lemma PersonNames()
    ensures ColumnNames(PERSON_COLUMNS) && ColumnNames(["class", "photo_s3_key"])
  {
  }

  lemma TeacherNames()
    ensures ColumnNames(["class", "subject", "photo_s3_key"])
  {
  }

  lemma LoginNames()
    ensures ColumnNames(LOGIN_COLUMNS)
  {
  }

  lemma ResetNames()
    ensures ColumnNames(RESET_COLUMNS)
  {
  }

  lemma StatusNames()
    ensures ColumnNames(STATUS_COLUMNS)
  {
  }

  lemma NamesJoin(a: seq<string>, b: seq<string>)
    requires ColumnNames(a) && ColumnNames(b)
    ensures ColumnNames(a + b)
  {
  }

  /** What is read back from the INSERT of a model with these columns. */
  lemma ModelInsertReads(table: string, columns: seq<string>)
    requires PlainName(table) && ColumnNames(columns)
    ensures ReadInsert(InsertFor(table, Columns(ModelTags(columns)))) == Some(Insert(table, columns, Marks(|columns|)))
  {
    assert forall x :: x in columns ==> ColumnName(x);
    ModelColumns(columns);
    InsertReads(table, columns);
  }

  /** So the statements for students, teachers and execs name all their columns but the id, photo key and
      reset code included, with one mark each. */
  lemma ModelStatements(table: string)
    requires PlainName(table)
    ensures forall columns :: columns == STUDENT_COLUMNS || columns == TEACHER_COLUMNS || columns == EXEC_COLUMNS ==>
              ReadInsert(InsertFor(table, Columns(ModelTags(columns)))) == Some(Insert(table, columns, Marks(|columns|)))
  {
    ModelsAreNamed();
    forall columns | columns == STUDENT_COLUMNS || columns == TEACHER_COLUMNS || columns == EXEC_COLUMNS
      ensures ReadInsert(InsertFor(table, Columns(ModelTags(columns)))) == Some(Insert(table, columns, Marks(|columns|)))
    {
      ModelInsertReads(table, columns);
    }
  }

  lemma ModelsAreNamed()
    ensures ColumnNames(STUDENT_COLUMNS) && ColumnNames(TEACHER_COLUMNS) && ColumnNames(EXEC_COLUMNS)
  {
    PersonNames();
    TeacherNames();
    LoginNames();
    ResetNames();
    StatusNames();
    NamesJoin(PERSON_COLUMNS, ["class", "photo_s3_key"]);
    NamesJoin(PERSON_COLUMNS, ["class", "subject", "photo_s3_key"]);
    NamesJoin(PERSON_COLUMNS, LOGIN_COLUMNS);
    NamesJoin(RESET_COLUMNS, STATUS_COLUMNS);
    NamesJoin(PERSON_COLUMNS + LOGIN_COLUMNS, RESET_COLUMNS + STATUS_COLUMNS);
  }
}
