/** The SQL text builders, and readers for the text they build: a reader says what a text with its
    arguments means, without knowing how it was put together. */
module QueryText {
  import opened Strings

  // ---------------------------------------------------------------- cutting text

  /** The text before the first c, and the text after it if there is a c. */
  function Cut(s: string, c: char): (string, Option<string>) {
    if s == "" then ("", None)
    else if s[0] == c then ("", Some(s[1..]))
    else var (a, rest) := Cut(s[1..], c); ([s[0]] + a, rest)
  }

  lemma {:induction false} CutShrinks(s: string, c: char)
    ensures Cut(s, c).1.Some? ==> |Cut(s, c).1.value| < |s|
  {
    if s != "" && s[0] != c {
      CutShrinks(s[1..], c);
    }
  }

  lemma {:induction false} CutAt(a: string, c: char, x: string)
    requires c !in a
    ensures Cut(a + [c] + x, c) == (a, Some(x))
  {
    if a == "" {
      assert (a + [c] + x)[1..] == x;
    } else {
      assert (a + [c] + x)[1..] == a[1..] + [c] + x;
      CutAt(a[1..], c, x);
      assert [a[0]] + a[1..] == a;
    }
  }

  lemma {:induction false} CutNone(a: string, c: char)
    requires c !in a
    ensures Cut(a, c) == (a, None)
  {
    if a != "" {
      CutNone(a[1..], c);
      assert [a[0]] + a[1..] == a;
    }
  }

  /** strings.Split with a one-character separator. */
  function Split(s: string, c: char): seq<string>
    decreases |s|
  {
    CutShrinks(s, c);
    var (a, rest) := Cut(s, c);
    if rest.None? then [a] else [a] + Split(rest.value, c)
  }

  // ---------------------------------------------------------------- ORDER BY

  predicate IsSortField(f: string) {
    f == "first_name" || f == "last_name" || f == "email" || f == "class" || f == "subject"
  }

  predicate IsSortOrder(o: string) {
    o == "asc" || o == "desc"
  }

  datatype SortItem = SortItem(field: string, order: string) {
    predicate Valid() {
      IsSortField(field) && IsSortOrder(order)
    }

    function Text(): string {
      " " + field + " " + order
    }
  }

  /** A sortby parameter of the form field:order with both parts valid. */
  function Entry(param: string): Option<SortItem> {
    var parts := Split(param, ':');
    if |parts| == 2 && SortItem(parts[0], parts[1]).Valid() then Some(SortItem(parts[0], parts[1])) else None
  }

  function ValidEntries(params: seq<string>): seq<SortItem> {
    if params == [] then []
    else ValidEntries(params[..|params| - 1]) +
         (if Entry(params[|params| - 1]).Some? then [Entry(params[|params| - 1]).value] else [])
  }

  /** Reads one item of an ORDER BY list: a space, a column, a space, a direction. */
  function ReadItem(s: string): Option<SortItem> {
    if s == "" || s[0] != ' ' then None
    else
      var (field, rest) := Cut(s[1..], ' ');
      if rest.Some? && SortItem(field, rest.value).Valid() then Some(SortItem(field, rest.value)) else None
  }

  function ReadItems(parts: seq<string>): Option<seq<SortItem>> {
    if parts == [] then Some([])
    else
      var before := ReadItems(parts[..|parts| - 1]);
      var last := ReadItem(parts[|parts| - 1]);
      if before.Some? && last.Some? then Some(before.value + [last.value]) else None
  }

  const ORDER_BY := " ORDER BY "

  /** Reads the end of a SELECT: nothing, or ORDER BY with a comma-separated list; None is a syntax error. */
  function ReadOrderBy(s: string): Option<seq<SortItem>> {
    if s == "" then Some([])
    else if ORDER_BY <= s then ReadItems(Split(s[|ORDER_BY|..], ','))
    else None
  }

  /** What the loop over the parameters has appended after ORDER BY. */
  function SortText(params: seq<string>): string {
    if params == [] then ""
    else
      var n := |params| - 1;
      var e := Entry(params[n]);
      SortText(params[..n]) +
      (if e.None? then "" else (if n > 0 then "," else "") + e.value.Text())
  }

  lemma Regroup(a: string, b: string, c: string, d: string)
    ensures a + (b + c) + d == a + (b + (c + d))
  {
  }

  lemma SortTextStep(params: seq<string>, i: nat)
    requires i < |params|
    ensures SortText(params[..i + 1]) == SortText(params[..i]) +
              (if Entry(params[i]).None? then "" else (if i > 0 then "," else "") + Entry(params[i]).value.Text())
  {
    assert params[..i + 1][..i] == params[..i];
  }

  method AddSorting(query: string, sortby: seq<string>) returns (r: string)
    ensures r == query + (if sortby == [] then "" else ORDER_BY + SortText(sortby))
  {
    r := query;
    if |sortby| > 0 {
      r := r + ORDER_BY;
      var i := 0;
      assert r == query + (ORDER_BY + SortText(sortby[..0]));
      while i < |sortby|
        invariant 0 <= i <= |sortby|
        invariant r == query + (ORDER_BY + SortText(sortby[..i]))
      {
        var piece := SortPiece(sortby[i], i);
        Regroup(query, ORDER_BY, SortText(sortby[..i]), piece);
        SortTextStep(sortby, i);
        r := r + piece;
        i := i + 1;
      }
      assert sortby[..i] == sortby;
    }
  }

  /** What one turn of the loop appends. */
  method SortPiece(param: string, i: nat) returns (piece: string)
    ensures piece == var e := Entry(param); if e.None? then "" else (if i > 0 then "," else "") + e.value.Text()
  {
    piece := "";
    var parts := Split(param, ':');
    if |parts| == 2 {
      var field, order := parts[0], parts[1];
      if IsSortOrder(order) && IsSortField(field) {
        if i > 0 {
          piece := ",";
        }
        piece := piece + (" " + field + " " + order);
      }
    }
  }

  lemma ItemReads(e: SortItem)
    requires e.Valid()
    ensures ',' !in e.Text() && ReadItem(e.Text()) == Some(e)
  {
    assert ' ' !in e.field && ',' !in e.field && ',' !in e.order;
    assert e.Text()[1..] == e.field + [' '] + e.order;
    CutAt(e.field, ' ', e.order);
  }

  /** A piece without separator at the end of a text that is split. */
  lemma {:induction false} SplitAppend(s: string, c: char, a: string)
    requires c !in a
    ensures Split(s + [c] + a, c) == Split(s, c) + [a]
    decreases |s|
  {
    CutShrinks(s, c);
    var (x, rest) := Cut(s, c);
    if rest.None? {
      CutIsWhole(s, c);
      CutAt(s, c, a);
      CutNone(a, c);
    } else {
      CutJoins(s, c);
      assert s + [c] + a == x + [c] + (rest.value + [c] + a);
      CutAt(x, c, rest.value + [c] + a);
      SplitAppend(rest.value, c, a);
    }
  }

  lemma {:induction false} CutIsWhole(s: string, c: char)
    requires Cut(s, c).1.None?
    ensures c !in s && Cut(s, c).0 == s
  {
    if s != "" {
      CutIsWhole(s[1..], c);
    }
  }

  lemma {:induction false} CutJoins(s: string, c: char)
    requires Cut(s, c).1.Some?
    ensures c !in Cut(s, c).0 && s == Cut(s, c).0 + [c] + Cut(s, c).1.value
  {
    if s[0] != c {
      CutJoins(s[1..], c);
    }
  }

  /** The parts between the commas of the sort text: the valid entries, after an empty part when the
      first parameter is not valid. */
  lemma {:induction false} SortTextParts(params: seq<string>)
    requires params != []
    ensures ReadItems(Split(SortText(params), ','))
         == if Entry(params[0]).Some? then Some(ValidEntries(params)) else None
  {
    var n := |params| - 1;
    if n == 0 {
      FirstPart(params[0]);
      assert params == [params[0]];
    } else {
      SortTextParts(params[..n]);
      assert params == params[..n] + [params[n]];
      NextPart(params[..n], params[n]);
      assert ValidEntries(params[..n]) + [] == ValidEntries(params[..n]);
    }
  }

  lemma FirstPart(param: string)
    ensures ReadItems(Split(SortText([param]), ','))
         == if Entry(param).Some? then Some(ValidEntries([param])) else None
  {
    var e := Entry(param);
    assert [param][..0] == [];
    assert SortText([param]) == SortText([]) + (if e.None? then "" else e.value.Text());
    if e.Some? {
      ItemReads(e.value);
      CutNone(e.value.Text(), ',');
      assert SortText([param]) == e.value.Text();
      ReadOne(e.value.Text());
      assert ValidEntries([param]) == ValidEntries([]) + [e.value] == [e.value];
    } else {
      assert Cut("", ',') == ("", None);
      ReadOne("");
    }
  }

  lemma NextPart(before: seq<string>, param: string)
    requires before != []
    ensures ReadItems(Split(SortText(before + [param]), ','))
         == if Entry(param).None? || ReadItems(Split(SortText(before), ',')).None?
            then ReadItems(Split(SortText(before), ','))
            else Some(ReadItems(Split(SortText(before), ',')).value + [Entry(param).value])
    ensures ValidEntries(before + [param])
         == ValidEntries(before) + (if Entry(param).Some? then [Entry(param).value] else [])
  {
    var e, s := Entry(param), SortText(before);
    assert (before + [param])[..|before|] == before;
    if e.Some? {
      ItemReads(e.value);
      assert SortText(before + [param]) == s + [','] + e.value.Text();
      SplitAppend(s, ',', e.value.Text());
      assert (Split(s, ',') + [e.value.Text()])[..|Split(s, ',')|] == Split(s, ',');
    } else {
      assert SortText(before + [param]) == s;
    }
  }

  lemma ReadOne(s: string)
    ensures ReadItems([s]) == if ReadItem(s).Some? then Some([ReadItem(s).value]) else None
  {
    assert [s][..0] == [];
    var nothing: seq<SortItem> := [];
    assert ReadItem(s).Some? ==> nothing + [ReadItem(s).value] == [ReadItem(s).value];
  }

  /** A parameter is an entry exactly when it is a sortable column, a colon and a direction. */
  lemma EntryIff(param: string, e: SortItem)
    ensures Entry(param) == Some(e) <==> e.Valid() && param == e.field + ":" + e.order
  {
    if e.Valid() && param == e.field + ":" + e.order {
      assert ':' !in e.field && ':' !in e.order;
      assert param == e.field + [':'] + e.order;
      CutAt(e.field, ':', e.order);
      CutNone(e.order, ':');
      assert Split(e.order, ':') == [e.order] && Split(param, ':') == [e.field] + Split(e.order, ':');
    }
    if Entry(param) == Some(e) {
      CutJoins(param, ':');
      var rest := Cut(param, ':').1.value;
      assert Split(param, ':') == [Cut(param, ':').0] + Split(rest, ':');
      if Cut(rest, ':').1.None? {
        CutIsWhole(rest, ':');
        assert Split(rest, ':') == [rest];
      }
    }
  }

  /** The valid entries are taken one by one, each from its own parameter. */
  lemma {:induction false} EntriesInOrder(before: seq<string>, after: seq<string>)
    ensures ValidEntries(before + after) == ValidEntries(before) + ValidEntries(after)
    ensures |after| == 1 && Entry(after[0]).Some? ==> ValidEntries(after) == [Entry(after[0]).value]
    ensures (forall p :: p in after ==> Entry(p).None?) ==> ValidEntries(after) == []
  {
    if after == [] {
      assert before + after == before;
    } else {
      var n := |after| - 1;
      EntriesInOrder(before, after[..n]);
      assert (before + after)[..|before + after| - 1] == before + after[..n];
      assert after[n] in after;
      assert n == 0 ==> after[..n] == [];
    }
  }

  /** The text that AddSorting appends is well formed exactly when sortby is absent or its first entry
      is valid, and then it lists the valid entries in their order. */
  lemma SortingMeaning(sortby: seq<string>)
    ensures ReadOrderBy(if sortby == [] then "" else ORDER_BY + SortText(sortby))
         == if sortby == [] || Entry(sortby[0]).Some? then Some(ValidEntries(sortby)) else None
  {
    if sortby != [] {
      var s := ORDER_BY + SortText(sortby);
      assert s[|ORDER_BY|..] == SortText(sortby);
      SortTextParts(sortby);
    }
  }

  // ---------------------------------------------------------------- WHERE

  /** Reads " AND column = ?" repeated, and evaluates it on a row of values by column name, under the
      equality of the column's collation. None is a syntax error, an unknown column or a wrong number
      of arguments. */
  function Holds(eq: (string, string) -> bool, s: string, args: seq<string>, row: map<string, string>): Option<bool>
    decreases |s|
  {
    if s == "" then (if args == [] then Some(true) else None)
    else if !(" AND " <= s) || args == [] then None
    else
      CutShrinks(s[5..], ' ');
      var (column, rest) := Cut(s[5..], ' ');
      if rest.None? || !("= ?" <= rest.value) || column !in row then None
      else
        var others := Holds(eq, rest.value[3..], args[1..], row);
        if others.None? then None else Some(eq(row[column], args[0]) && others.value)
  }

  const FILTERS: set<string> := {"first_name", "last_name", "email", "class", "subject"}

  function ValueOf(query: map<string, string>, param: string): string {
    if param in query then query[param] else ""
  }

  /** The filters that a request sets. */
  function ActiveFilters(query: map<string, string>): set<string> {
    set f | f in FILTERS && ValueOf(query, f) != ""
  }

  function Condition(column: string): string {
    " AND " + column + " = ?"
  }

  /** Conditions for these columns, in this order. */
  function FilterText(columns: seq<string>): string {
    if columns == [] then "" else Condition(columns[0]) + FilterText(columns[1..])
  }

  function FilterArgs(query: map<string, string>, columns: seq<string>): seq<string> {
    seq(|columns|, i requires 0 <= i < |columns| => ValueOf(query, columns[i]))
  }

  lemma {:induction false} FilterTextAppend(columns: seq<string>, c: string)
    ensures FilterText(columns + [c]) == FilterText(columns) + Condition(c)
  {
    if columns == [] {
      assert columns + [c] == [c];
      assert FilterText([c]) == Condition(c) + FilterText([]);
    } else {
      assert (columns + [c])[1..] == columns[1..] + [c];
      FilterTextAppend(columns[1..], c);
    }
  }

  function Names(columns: seq<string>): set<string> {
    set c | c in columns
  }

  /** What the filters of a request ask of a row: an error if a column does not exist, else all
      equalities. */
  ghost function Wanted(
      eq: (string, string) -> bool, query: map<string, string>, columns: set<string>, row: map<string, string>)
    : Option<bool>
  {
    if !(columns <= row.Keys) then None
    else Some(forall f :: f in columns ==> eq(row[f], ValueOf(query, f)))
  }

  /** The first condition of a text takes the first argument. */
  lemma HoldsStep(
      eq: (string, string) -> bool, c: string, rest: string, v: string, args: seq<string>, row: map<string, string>)
    requires ' ' !in c
    ensures Holds(eq, Condition(c) + rest, [v] + args, row)
         == if c !in row || Holds(eq, rest, args, row).None? then None
            else Some(eq(row[c], v) && Holds(eq, rest, args, row).value)
  {
    var s := Condition(c) + rest;
    assert s[5..] == c + [' '] + ("= ?" + rest);
    CutAt(c, ' ', "= ?" + rest);
    assert ("= ?" + rest)[3..] == rest;
    assert ([v] + args)[1..] == args;
  }

  lemma {:induction false} FilterTextHolds(
      eq: (string, string) -> bool, query: map<string, string>, columns: seq<string>, row: map<string, string>)
    requires forall c :: c in columns ==> ' ' !in c
    ensures Holds(eq, FilterText(columns), FilterArgs(query, columns), row)
         == Wanted(eq, query, Names(columns), row)
  {
    if columns != [] {
      var c := columns[0];
      HoldsStep(eq, c, FilterText(columns[1..]), ValueOf(query, c), FilterArgs(query, columns[1..]), row);
      assert FilterArgs(query, columns) == [ValueOf(query, c)] + FilterArgs(query, columns[1..]);
      FilterTextHolds(eq, query, columns[1..], row);
      assert Names(columns) == {c} + Names(columns[1..]);
    }
  }

  lemma AppendCondition(
      query: string, args: seq<string>, request: map<string, string>, columns: seq<string>, c: string)
    ensures query + FilterText(columns + [c]) == query + FilterText(columns) + Condition(c)
    ensures args + FilterArgs(request, columns + [c]) == args + FilterArgs(request, columns) + [ValueOf(request, c)]
    ensures Names(columns + [c]) == Names(columns) + {c}
  {
    FilterTextAppend(columns, c);
    assert FilterArgs(request, columns + [c]) == FilterArgs(request, columns) + [ValueOf(request, c)];
  }

  /** The parameters among these that a request sets. */
  ghost function Chosen(request: map<string, string>, params: set<string>): set<string> {
    set f | f in params && ValueOf(request, f) != ""
  }

  lemma ChosenMore(request: map<string, string>, params: set<string>, p: string)
    ensures Chosen(request, params + {p}) == Chosen(request, params) + (if ValueOf(request, p) != "" then {p} else {})
  {
  }

  /** The loop over the parameter map, whose iteration order is arbitrary. */
  method AddConditions(query: string, args: seq<string>, request: map<string, string>, params: set<string>)
    returns (q: string, a: seq<string>, ghost order: seq<string>)
    ensures q == query + FilterText(order) && a == args + FilterArgs(request, order)
    ensures Names(order) == Chosen(request, params)
  {
    q, a, order := query, args, [];
    var pending := params;
    ghost var done: set<string> := {};
    while pending != {}
      invariant pending + done == params
      invariant Names(order) == Chosen(request, done)
      invariant q == query + FilterText(order) && a == args + FilterArgs(request, order)
      decreases |pending|
    {
      var param :| param in pending;
      ChosenMore(request, done, param);
      q, a, order := AddCondition(q, a, request, param, query, args, order);
      pending, done := pending - {param}, done + {param};
    }
    assert done == params;
  }

  /** One turn of the loop. */
  method AddCondition(q0: string, a0: seq<string>, request: map<string, string>, param: string,
                      ghost query: string, ghost args: seq<string>, ghost order: seq<string>)
    returns (q: string, a: seq<string>, ghost next: seq<string>)
    requires q0 == query + FilterText(order) && a0 == args + FilterArgs(request, order)
    ensures q == query + FilterText(next) && a == args + FilterArgs(request, next)
    ensures Names(next) == Names(order) + (if ValueOf(request, param) != "" then {param} else {})
  {
    q, a, next := q0, a0, order;
    var value := ValueOf(request, param);
    if value != "" {
      AppendCondition(query, args, request, order, param);
      q := q + Condition(param);
      a := a + [value];
      next := order + [param];
    }
  }

  /** A row is wanted when it equals every non-empty parameter of the five; a column that is asked for must
      exist. */
  ghost function Wants(eq: (string, string) -> bool, request: map<string, string>, row: map<string, string>)
    : Option<bool>
  {
    var asked := set f | f in {"first_name", "last_name", "email", "class", "subject"}
                         && f in request && request[f] != "";
    if asked <= row.Keys then Some(forall f :: f in asked ==> eq(row[f], request[f])) else None
  }

  lemma WantedIsWants(eq: (string, string) -> bool, request: map<string, string>, row: map<string, string>)
    ensures Wanted(eq, request, ActiveFilters(request), row) == Wants(eq, request, row)
  {
    assert ActiveFilters(request) == set f | f in {"first_name", "last_name", "email", "class", "subject"}
                                             && f in request && request[f] != "";
  }

  /** For every iteration order of the parameter map, the appended text with the appended arguments
      selects exactly the rows that equal all non-empty parameters. */
  method AddFilters(query: string, args: seq<string>, request: map<string, string>)
    returns (q: string, a: seq<string>)
    ensures query <= q && args <= a
    ensures forall eq, row :: Holds(eq, q[|query|..], a[|args|..], row) == Wants(eq, request, row)
  {
    ghost var order;
    q, a, order := AddConditions(query, args, request, FILTERS);
    assert Chosen(request, FILTERS) == ActiveFilters(request);
    OrderDoesNotMatter(request, order);
    assert q[|query|..] == FilterText(order) && a[|args|..] == FilterArgs(request, order);
  }

  lemma OrderDoesNotMatter(request: map<string, string>, order: seq<string>)
    requires Names(order) == ActiveFilters(request)
    ensures forall eq, row :: Holds(eq, FilterText(order), FilterArgs(request, order), row) == Wants(eq, request, row)
  {
    FiltersHaveNoSpace();
    assert forall c :: c in order ==> c in Names(order);
    forall eq, row
      ensures Holds(eq, FilterText(order), FilterArgs(request, order), row) == Wants(eq, request, row)
    {
      FilterTextHolds(eq, request, order, row);
      WantedIsWants(eq, request, row);
    }
  }

  lemma FiltersHaveNoSpace()
    ensures forall f :: f in FILTERS ==> ' ' !in f
  {
  }
}
