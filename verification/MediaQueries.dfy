/** The statements that internal/repository/media.go builds, and what PostgreSQL makes of them.

    A statement is kept as its clauses instead of its text; `$n` is the placeholder number n. Conditions are
    evaluated in SQL's three-valued logic. The order of ORDER BY is a parameter `leq` (a collation), and so is
    the order the database picks among equal keys. */
module MediaTable {
  import opened Options
  import opened LikePatterns

  datatype Column =
    | Id | Filename | OriginalFilename | MimeType | FileSize | Width | Height | Duration | BucketName | ObjectKey
    | Url | ThumbnailUrl | Alt | Caption | Description | Metadata | IsPrivate | OrganizationId | UploadedBy
    | CreatedAt | UpdatedAt

  datatype Value = Null | Text(text: string) | Int(number: int) | Bool(flag: bool) | Time(instant: int)

  /** A missing column is null. */
  type Row = map<Column, Value>

  function Get(row: Row, col: Column): Value {
    if col in row then row[col] else Null
  }

  datatype Truth = Yes | No | Unknown

  function Both(a: Truth, b: Truth): Truth {
    if a.No? || b.No? then No else if a.Yes? && b.Yes? then Yes else Unknown
  }

  function Either(a: Truth, b: Truth): Truth {
    if a.Yes? || b.Yes? then Yes else if a.No? && b.No? then No else Unknown
  }

  function FromBool(b: bool): Truth {
    if b then Yes else No
  }

  /** One conjunct of a WHERE clause; `placeholder` counts from 1. */
  datatype Cond =
    | Equals(col: Column, placeholder: nat)
    | LikeCond(col: Column, placeholder: nat)
    | AnyILike(cols: seq<Column>, placeholder: nat)

  function Arg(args: seq<Value>, placeholder: nat): Value {
    if 1 <= placeholder <= |args| then args[placeholder - 1] else Null
  }

  function Compare(a: Value, b: Value): Truth {
    if a.Null? || b.Null? then Unknown else FromBool(a == b)
  }

  function TextMatch(x: Value, pattern: Value, fold: bool): Truth {
    if x.Text? && pattern.Text? then
      FromBool(if fold then ILike(x.text, pattern.text) else Like(x.text, pattern.text))
    else Unknown
  }

  function AnyOf(row: Row, cols: seq<Column>, pattern: Value): Truth {
    if cols == [] then No
    else Either(TextMatch(Get(row, cols[0]), pattern, true), AnyOf(row, cols[1..], pattern))
  }

  function EvalCond(c: Cond, row: Row, args: seq<Value>): Truth {
    match c
    case Equals(col, n) => Compare(Get(row, col), Arg(args, n))
    case LikeCond(col, n) => TextMatch(Get(row, col), Arg(args, n), false)
    case AnyILike(cols, n) => AnyOf(row, cols, Arg(args, n))
  }

  function EvalWhere(conds: seq<Cond>, row: Row, args: seq<Value>): Truth {
    if conds == [] then Yes
    else Both(EvalWhere(conds[..|conds| - 1], row, args), EvalCond(conds[|conds| - 1], row, args))
  }

  /** A WHERE clause keeps the rows for which it is true, not those for which it is unknown. */
  predicate Selected(conds: seq<Cond>, row: Row, args: seq<Value>) {
    EvalWhere(conds, row, args) == Yes
  }

  function Rows(table: seq<Row>, keep: Row -> bool): seq<Row> {
    if table == [] then []
    else Rows(table[..|table| - 1], keep) + if keep(table[|table| - 1]) then [table[|table| - 1]] else []
  }

  datatype Query = Query(where: seq<Cond>, sortBy: Column, descending: bool, limitAt: nat, offsetAt: nat)

  function Placeholders(conds: seq<Cond>): set<nat> {
    set i | 0 <= i < |conds| :: conds[i].placeholder
  }

  /** The slice that LIMIT and OFFSET take. */
  function Page<T>(rows: seq<T>, limit: nat, offset: nat): seq<T> {
    if offset >= |rows| then []
    else if offset + limit >= |rows| then rows[offset..]
    else rows[offset..offset + limit]
  }

  // ---------------------------------------------------------------------------
  // Orderings
  // ---------------------------------------------------------------------------

  /** The sort order of one ORDER BY clause over whole rows. */
  datatype Order = Order(col: Column, descending: bool, leq: (Value, Value) -> bool) {
    predicate Before(a: Row, b: Row) {
      if descending then leq(Get(b, col), Get(a, col)) else leq(Get(a, col), Get(b, col))
    }

    predicate Tied(a: Row, b: Row) {
      Before(a, b) && Before(b, a)
    }
  }

  ghost predicate TotalPreorder(leq: (Value, Value) -> bool) {
    && (forall a, b :: leq(a, b) || leq(b, a))
    && (forall a, b, c :: leq(a, b) && leq(b, c) ==> leq(a, c))
  }

  ghost predicate SortedBy(rows: seq<Row>, order: Order) {
    forall i, j :: 0 <= i <= j < |rows| ==> order.Before(rows[i], rows[j])
  }

  /** What a database may return for ORDER BY: any sorted arrangement of the rows. */
  ghost predicate IsOrdering(ordered: seq<Row>, rows: seq<Row>, order: Order) {
    multiset(ordered) == multiset(rows) && SortedBy(ordered, order)
  }
}

/** `MediaRepository.List`: the statements it compiles its options to. */
module MediaList {
  import opened Options
  import opened LikePatterns
  import opened MediaTable

  datatype ListOptions = ListOptions(
    limit: int, offset: int, search: string, mimePrefix: string, sortBy: string, sortOrder: string)

  // ---------------------------------------------------------------------------
  // What the options ask for
  // ---------------------------------------------------------------------------

  const SEARCHED: seq<Column> := [Filename, OriginalFilename, Alt, Caption]

  predicate Finds(row: Row, cols: seq<Column>, pattern: string) {
    exists i :: 0 <= i < |cols| && Get(row, cols[i]).Text? && ILike(Get(row, cols[i]).text, pattern)
  }

  predicate Wanted(row: Row, org: string, opts: ListOptions) {
    && Get(row, OrganizationId) == Text(org)
    && (opts.search == "" || Finds(row, SEARCHED, "%" + opts.search + "%"))
    && (opts.mimePrefix == "" ||
        (Get(row, MimeType).Text? && Like(Get(row, MimeType).text, opts.mimePrefix + "%")))
  }

  function EffectiveLimit(limit: int): nat {
    if 1 <= limit <= 100 then limit else 50
  }

  function SortColumn(sortBy: string): Column {
    if sortBy == "file_size" then FileSize
    else if sortBy == "filename" then Filename
    else CreatedAt
  }

  /** strings.EqualFold(s, "asc"): the long s folds to s as well. */
  predicate IsAscending(s: string) {
    |s| == 3 && s[0] in "aA" && s[1] in "sS\U{017F}" && s[2] in "cC"
  }

  /** The column is a text that contains the given one, up to case. */
  ghost predicate HasText(row: Row, col: Column, search: string) {
    Get(row, col).Text? && OccursUpToCase(search, Get(row, col).text)
  }

  predicate Matching(row: Row, col: Column, pattern: string) {
    Get(row, col).Text? && ILike(Get(row, col).text, pattern)
  }

  /** The four columns of a search. */
  lemma FindsMeans(row: Row, pattern: string)
    ensures Finds(row, SEARCHED, pattern) <==>
            Matching(row, Filename, pattern) || Matching(row, OriginalFilename, pattern) ||
            Matching(row, Alt, pattern) || Matching(row, Caption, pattern)
  {
    assert SEARCHED[0] == Filename && SEARCHED[1] == OriginalFilename && SEARCHED[2] == Alt && SEARCHED[3] == Caption;
  }

  /** Exactly the rows that a listing is about. */
  lemma WantedMeans(row: Row, org: string, opts: ListOptions)
    ensures Wanted(row, org, opts) <==>
            && Get(row, OrganizationId) == Text(org)
            && (opts.search != "" ==>
                  var pattern := "%" + opts.search + "%";
                  Matching(row, Filename, pattern) || Matching(row, OriginalFilename, pattern) ||
                  Matching(row, Alt, pattern) || Matching(row, Caption, pattern))
            && (opts.mimePrefix != "" ==>
                  Get(row, MimeType).Text? && Like(Get(row, MimeType).text, opts.mimePrefix + "%"))
  {
    FindsMeans(row, "%" + opts.search + "%");
  }

  /** The wanted rows when the texts have no metacharacters. */
  ghost predicate WantedPlainly(row: Row, org: string, opts: ListOptions) {
    && Get(row, OrganizationId) == Text(org)
    && (opts.search == "" ||
        HasText(row, Filename, opts.search) || HasText(row, OriginalFilename, opts.search) ||
        HasText(row, Alt, opts.search) || HasText(row, Caption, opts.search))
    && (opts.mimePrefix == "" ||
        (Get(row, MimeType).Text? && opts.mimePrefix <= Get(row, MimeType).text))
  }

  lemma PlainTextsMeanSubstringAndPrefix(row: Row, org: string, opts: ListOptions)
    requires Plain(opts.search) && Plain(opts.mimePrefix)
    ensures Wanted(row, org, opts) <==> WantedPlainly(row, org, opts)
  {
    SearchMeansSubstring(opts.search);
    TypeMeansPrefix(opts.mimePrefix);
    FindsMeans(row, "%" + opts.search + "%");
  }

  /** The spellings of "asc" that strings.EqualFold accepts. */
  lemma AscendingMeans(s: string)
    ensures IsAscending(s) <==>
            s in {"asc", "asC", "aSc", "aSC", "Asc", "AsC", "ASc", "ASC",
                  "a\U{017F}c", "a\U{017F}C", "A\U{017F}c", "A\U{017F}C"}
  {
    if |s| == 3 {
      assert s == [s[0], s[1], s[2]];
    }
  }

  // ---------------------------------------------------------------------------
  // The WHERE clause
  // ---------------------------------------------------------------------------

  function OneTo(n: nat): (r: set<nat>)
    ensures forall i: nat :: i in r <==> 1 <= i <= n
  {
    if n == 0 then {} else OneTo(n - 1) + {n}
  }

  lemma {:induction false} AnyOfMeans(row: Row, cols: seq<Column>, pattern: string)
    ensures AnyOf(row, cols, Text(pattern)).Yes? <==> Finds(row, cols, pattern)
  {
    if cols != [] {
      AnyOfMeans(row, cols[1..], pattern);
      if Finds(row, cols[1..], pattern) {
        var i :| 0 <= i < |cols[1..]| && Get(row, cols[1..][i]).Text? && ILike(Get(row, cols[1..][i]).text, pattern);
        assert cols[i + 1] == cols[1..][i];
      }
      if Finds(row, cols, pattern) {
        var i :| 0 <= i < |cols| && Get(row, cols[i]).Text? && ILike(Get(row, cols[i]).text, pattern);
        assert i > 0 ==> cols[1..][i - 1] == cols[i];
      }
    }
  }

  lemma SelectedSnoc(conds: seq<Cond>, c: Cond, row: Row, args: seq<Value>)
    ensures Selected(conds + [c], row, args) <==> Selected(conds, row, args) && EvalCond(c, row, args).Yes?
  {
    assert (conds + [c])[..|conds|] == conds;
  }

  /** Further arguments do not change the meaning of conditions that do not mention them. */
  lemma {:induction false} MoreArguments(conds: seq<Cond>, row: Row, args: seq<Value>, more: seq<Value>)
    requires forall i :: 0 <= i < |conds| ==> 1 <= conds[i].placeholder <= |args|
    ensures EvalWhere(conds, row, args + more) == EvalWhere(conds, row, args)
  {
    if conds != [] {
      MoreArguments(conds[..|conds| - 1], row, args, more);
      assert Arg(args + more, conds[|conds| - 1].placeholder) == Arg(args, conds[|conds| - 1].placeholder);
    }
  }

  ghost predicate InRange(conds: seq<Cond>, args: seq<Value>) {
    forall i :: 0 <= i < |conds| ==> 1 <= conds[i].placeholder <= |args|
  }

  /** The filter so far, after the clauses for the search and the type have been considered or not. */
  ghost predicate Filters(where: seq<Cond>, args: seq<Value>, org: string, opts: ListOptions) {
    && InRange(where, args) && Placeholders(where) == OneTo(|args|)
    && forall row :: Selected(where, row, args) <==> Wanted(row, org, opts)
  }

  lemma AddCond(where: seq<Cond>, args: seq<Value>, c: Cond, arg: Value, row: Row)
    requires InRange(where, args) && c.placeholder == |args| + 1
    ensures InRange(where + [c], args + [arg])
    ensures Placeholders(where + [c]) == Placeholders(where) + {c.placeholder}
    ensures Selected(where + [c], row, args + [arg]) <==>
            Selected(where, row, args) && EvalCond(c, row, args + [arg]).Yes?
  {
    MoreArguments(where, row, args, [arg]);
    SelectedSnoc(where, c, row, args + [arg]);
    forall n | n in Placeholders(where) ensures n in Placeholders(where + [c]) {
      var i :| 0 <= i < |where| && where[i].placeholder == n;
      assert (where + [c])[i].placeholder == n;
    }
    assert (where + [c])[|where|] == c;
    assert forall i :: 0 <= i < |where| ==> (where + [c])[i] == where[i];
  }

  lemma FilterGrows(where: seq<Cond>, args: seq<Value>, org: string, done: ListOptions, done': ListOptions,
                    c: Cond, arg: Value)
    requires Filters(where, args, org, done) && c.placeholder == |args| + 1
    requires forall row :: Wanted(row, org, done') <==>
                           Wanted(row, org, done) && EvalCond(c, row, args + [arg]).Yes?
    ensures Filters(where + [c], args + [arg], org, done')
  {
    forall row ensures Selected(where + [c], row, args + [arg]) <==> Wanted(row, org, done') {
      AddCond(where, args, c, arg, row);
    }
    AddCond(where, args, c, arg, map[]);
  }

  lemma OrgFilter(org: string, opts: ListOptions)
    requires opts.search == "" && opts.mimePrefix == ""
    ensures Filters([Equals(OrganizationId, 1)], [Text(org)], org, opts)
  {
    var c, arg := Equals(OrganizationId, 1), Text(org);
    forall row ensures Selected([c], row, [arg]) <==> Wanted(row, org, opts) {
      OrgSelected(org, opts, row);
    }
    assert [c][0].placeholder in Placeholders([c]);
    assert Placeholders([c]) == {1} == OneTo(1);
  }

  lemma OrgSelected(org: string, opts: ListOptions, row: Row)
    requires opts.search == "" && opts.mimePrefix == ""
    ensures Selected([Equals(OrganizationId, 1)], row, [Text(org)]) <==> Wanted(row, org, opts)
  {
    hide Wanted;
    var c, arg := Equals(OrganizationId, 1), Text(org);
    assert [] + [c] == [c];
    SelectedSnoc([], c, row, [arg]);
    OrgWanted(org, opts, row);
  }

  lemma OrgWanted(org: string, opts: ListOptions, row: Row)
    requires opts.search == "" && opts.mimePrefix == ""
    ensures Wanted(row, org, opts) <==> Compare(Get(row, OrganizationId), Text(org)).Yes?
  {
  }

  lemma SearchFilter(where: seq<Cond>, args: seq<Value>, org: string, opts: ListOptions, search: string)
    requires Filters(where, args, org, opts) && opts.search == "" && search != ""
    ensures Filters(where + [AnyILike(SEARCHED, |args| + 1)], args + [Text("%" + search + "%")], org,
                    opts.(search := search))
  {
    var c, arg := AnyILike(SEARCHED, |args| + 1), Text("%" + search + "%");
    assert Arg(args + [arg], |args| + 1) == arg;
    forall row ensures Wanted(row, org, opts.(search := search)) <==>
                       Wanted(row, org, opts) && EvalCond(c, row, args + [arg]).Yes? {
      AnyOfMeans(row, SEARCHED, "%" + search + "%");
    }
    FilterGrows(where, args, org, opts, opts.(search := search), c, arg);
  }

  lemma TypeFilter(where: seq<Cond>, args: seq<Value>, org: string, opts: ListOptions, prefix: string)
    requires Filters(where, args, org, opts) && opts.mimePrefix == "" && prefix != ""
    ensures Filters(where + [LikeCond(MimeType, |args| + 1)], args + [Text(prefix + "%")], org,
                    opts.(mimePrefix := prefix))
  {
    var c, arg := LikeCond(MimeType, |args| + 1), Text(prefix + "%");
    assert Arg(args + [arg], |args| + 1) == arg;
    FilterGrows(where, args, org, opts, opts.(mimePrefix := prefix), c, arg);
  }

  /** The two arguments of LIMIT and OFFSET come after those of the filter. */
  lemma PageArguments(where: seq<Cond>, args: seq<Value>, org: string, opts: ListOptions, limit: Value, offset: Value)
    requires Filters(where, args, org, opts)
    ensures var all := args + [limit, offset];
            && InRange(where, all) && Placeholders(where) + {|args| + 1, |args| + 2} == OneTo(|all|)
            && (forall row :: Selected(where, row, all) <==> Wanted(row, org, opts))
            && Arg(all, |args| + 1) == limit && Arg(all, |args| + 2) == offset
  {
    forall row ensures Selected(where, row, args + [limit, offset]) <==> Wanted(row, org, opts) {
      MoreArguments(where, row, args, [limit, offset]);
    }
  }

  /** The statements for the count and for the page, with their arguments. */
  method Build(org: string, opts: ListOptions)
    returns (countWhere: seq<Cond>, countArgs: seq<Value>, query: Query, args: seq<Value>)
    ensures Filters(countWhere, countArgs, org, opts)
    ensures InRange(query.where, args) && Placeholders(query.where) + {query.limitAt, query.offsetAt} == OneTo(|args|)
    ensures forall row :: Selected(query.where, row, args) <==> Wanted(row, org, opts)
    ensures Arg(args, query.limitAt) == Int(EffectiveLimit(opts.limit)) && Arg(args, query.offsetAt) == Int(opts.offset)
    ensures query.sortBy == SortColumn(opts.sortBy) && query.descending == !IsAscending(opts.sortOrder)
  {
    hide Filters, InRange, Wanted, Selected, Placeholders, Arg;
    var limit := opts.limit;
    if limit <= 0 || limit > 100 {
      limit := 50;
    }
    var where := [Equals(OrganizationId, 1)];
    args := [Text(org)];
    var argIdx := 2;
    ghost var done := opts.(search := "", mimePrefix := "");
    OrgFilter(org, done);

    if opts.search != "" {
      SearchFilter(where, args, org, done, opts.search);
      where := where + [AnyILike(SEARCHED, argIdx)];
      args := args + [Text("%" + opts.search + "%")];
      argIdx := argIdx + 1;
    }
    done := opts.(mimePrefix := "");

    if opts.mimePrefix != "" {
      TypeFilter(where, args, org, done, opts.mimePrefix);
      where := where + [LikeCond(MimeType, argIdx)];
      args := args + [Text(opts.mimePrefix + "%")];
      argIdx := argIdx + 1;
    }
    countWhere, countArgs := where, args;

    var sortCol := CreatedAt;
    match opts.sortBy {
      case "file_size" => sortCol := FileSize;
      case "filename" => sortCol := Filename;
      case _ =>
    }
    query := Query(where, sortCol, !IsAscending(opts.sortOrder), argIdx, argIdx + 1);
    PageArguments(where, args, org, opts, Int(limit), Int(opts.offset));
    args := args + [Int(limit), Int(opts.offset)];
  }

  // ---------------------------------------------------------------------------
  // Running the statements
  // ---------------------------------------------------------------------------

  /** The database sorts rows in an order of its own choice among those that ORDER BY allows. */
  type Sorter = (seq<Row>, Order) -> seq<Row>

  ghost predicate Lawful(sort: Sorter, leq: (Value, Value) -> bool) {
    forall rows, order: Order :: order.leq == leq ==> IsOrdering(sort(rows, order), rows, order)
  }

  datatype Answer = Answer(rows: seq<Row>) | QueryError

  /** SELECT ... WHERE ... ORDER BY ... LIMIT ... OFFSET ...; a negative offset is an error. */
  function Execute(query: Query, args: seq<Value>, table: seq<Row>, leq: (Value, Value) -> bool, sort: Sorter): Answer {
    var kept := Rows(table, row => Selected(query.where, row, args));
    var limit, offset := Arg(args, query.limitAt), Arg(args, query.offsetAt);
    if limit.Int? && offset.Int? && limit.number >= 0 && offset.number >= 0 then
      Answer(Page(sort(kept, Order(query.sortBy, query.descending, leq)), limit.number, offset.number))
    else QueryError
  }

  datatype Fault = NoFault | CountFails | QueryFails

  datatype Listing = Listing(items: seq<Row>, total: nat) | ListError

  lemma {:induction false} SameRows(table: seq<Row>, p: Row -> bool, q: Row -> bool)
    requires forall row :: p(row) == q(row)
    ensures Rows(table, p) == Rows(table, q)
  {
    if table != [] {
      SameRows(table[..|table| - 1], p, q);
    }
  }

  function ListOrder(opts: ListOptions, leq: (Value, Value) -> bool): Order {
    Order(SortColumn(opts.sortBy), !IsAscending(opts.sortOrder), leq)
  }

  function WantedRows(table: seq<Row>, org: string, opts: ListOptions): seq<Row> {
    Rows(table, row => Wanted(row, org, opts))
  }

  /** All wanted rows, as the database sorts them. */
  function SortedWanted(
    table: seq<Row>, org: string, opts: ListOptions, leq: (Value, Value) -> bool, sort: Sorter): seq<Row>
  {
    sort(WantedRows(table, org, opts), ListOrder(opts, leq))
  }

  /** What a listing without failures answers. */
  function Listed(table: seq<Row>, org: string, opts: ListOptions, leq: (Value, Value) -> bool, sort: Sorter): Listing {
    if opts.offset < 0 then ListError
    else Listing(Page(SortedWanted(table, org, opts, leq, sort), EffectiveLimit(opts.limit), opts.offset),
                 |WantedRows(table, org, opts)|)
  }

  lemma PageIsSorted(rows: seq<Row>, order: Order, limit: nat, offset: nat)
    requires SortedBy(rows, order)
    ensures SortedBy(Page(rows, limit, offset), order)
  {
    var page := Page(rows, limit, offset);
    assert forall i :: 0 <= i < |page| ==> page[i] == rows[offset + i];
  }

  /** For every table and every choice of options: `total` counts the wanted rows, and the items are the requested
      slice of the wanted rows as the database sorts them, which for a lawful database is in the requested order. */
  method List(table: seq<Row>, org: string, opts: ListOptions, leq: (Value, Value) -> bool, sort: Sorter, fault: Fault)
    returns (listing: Listing)
    ensures listing.ListError? <==> !fault.NoFault? || opts.offset < 0
    ensures listing.Listing? ==> listing == Listed(table, org, opts, leq, sort)
    ensures listing.Listing? && Lawful(sort, leq) ==>
              SortedBy(listing.items, ListOrder(opts, leq)) && forall row :: row in listing.items ==> Wanted(row, org, opts)
  {
    var countWhere, countArgs, query, args := Build(org, opts);
    if fault.CountFails? {
      return ListError;
    }
    SameRows(table, row => Selected(countWhere, row, countArgs), row => Wanted(row, org, opts));
    SameRows(table, row => Selected(query.where, row, args), row => Wanted(row, org, opts));
    var total := |Rows(table, row => Selected(countWhere, row, countArgs))|;
    if fault.QueryFails? {
      return ListError;
    }
    var answer := Execute(query, args, table, leq, sort);
    if answer.QueryError? {
      return ListError;
    }
    // collectMediaFiles
    var files: seq<Row> := [];
    for i := 0 to |answer.rows|
      invariant files == answer.rows[..i]
    {
      files := files + [answer.rows[i]];
    }
    if Lawful(sort, leq) {
      LawfulListing(table, org, opts, leq, sort);
    }
    return Listing(files, total);
  }

  lemma {:induction false} RowsAreKept(table: seq<Row>, keep: Row -> bool, row: Row)
    requires row in Rows(table, keep)
    ensures keep(row)
  {
    if table != [] && row in Rows(table[..|table| - 1], keep) {
      RowsAreKept(table[..|table| - 1], keep, row);
    }
  }

  function KeptIndices(table: seq<Row>, keep: Row -> bool): set<nat> {
    set i: nat | i < |table| && keep(table[i])
  }

  lemma KeptSnoc(table: seq<Row>, keep: Row -> bool)
    requires table != []
    ensures var last := |table| - 1;
            && last !in KeptIndices(table[..last], keep)
            && KeptIndices(table, keep) == KeptIndices(table[..last], keep) + if keep(table[last]) then {last} else {}
  {
  }

  lemma {:induction false} RowsAreCounted(table: seq<Row>, keep: Row -> bool)
    ensures |Rows(table, keep)| == |KeptIndices(table, keep)|
  {
    if table == [] {
      assert KeptIndices(table, keep) == {};
    } else {
      KeptSnoc(table, keep);
      hide KeptIndices;
      RowsAreCounted(table[..|table| - 1], keep);
    }
  }

  lemma {:induction false} RowsAreComplete(table: seq<Row>, keep: Row -> bool, row: Row)
    ensures multiset(Rows(table, keep))[row] == if keep(row) then multiset(table)[row] else 0
  {
    if table != [] {
      RowsAreComplete(table[..|table| - 1], keep, row);
      assert table == table[..|table| - 1] + [table[|table| - 1]];
    }
  }

  /** What a listing shows, for a lawful database: the size of the page, the total, the order of the items, and
      that together with the rows of other pages they are exactly the wanted rows of the table. */
  lemma ListedMeans(table: seq<Row>, org: string, opts: ListOptions, leq: (Value, Value) -> bool, sort: Sorter)
    requires Lawful(sort, leq) && opts.offset >= 0
    ensures var listing := Listed(table, org, opts, leq, sort);
            var size := if opts.limit < 1 || opts.limit > 100 then 50 else opts.limit;
            var col := if opts.sortBy == "file_size" then FileSize
                       else if opts.sortBy == "filename" then Filename else CreatedAt;
            var sorted := SortedWanted(table, org, opts, leq, sort);
            && listing.Listing?
            && listing.total == |sorted| == |set i | 0 <= i < |table| && Wanted(table[i], org, opts)|
            && (forall row :: multiset(sorted)[row] == if Wanted(row, org, opts) then multiset(table)[row] else 0)
            && |listing.items| == (if opts.offset >= |sorted| then 0
                                   else if |sorted| - opts.offset < size then |sorted| - opts.offset else size)
            && (forall i :: 0 <= i < |listing.items| ==> listing.items[i] == sorted[opts.offset + i])
            && (forall i, j :: 0 <= i <= j < |sorted| ==>
                  if IsAscending(opts.sortOrder) then leq(Get(sorted[i], col), Get(sorted[j], col))
                  else leq(Get(sorted[j], col), Get(sorted[i], col)))
  {
    var wanted, order := WantedRows(table, org, opts), ListOrder(opts, leq);
    var sorted := sort(wanted, order);
    assert IsOrdering(sorted, wanted, order);
    assert |multiset(sorted)| == |sorted| && |multiset(wanted)| == |wanted|;
    CountWanted(table, org, opts);
    forall row ensures multiset(wanted)[row] == if Wanted(row, org, opts) then multiset(table)[row] else 0 {
      RowsAreComplete(table, row => Wanted(row, org, opts), row);
    }
    hide Wanted, WantedRows, IsAscending;
    forall i, j | 0 <= i <= j < |sorted| ensures order.Before(sorted[i], sorted[j]) {}
  }

  lemma CountWanted(table: seq<Row>, org: string, opts: ListOptions)
    ensures |WantedRows(table, org, opts)| == |set i | 0 <= i < |table| && Wanted(table[i], org, opts)|
  {
    RowsAreCounted(table, row => Wanted(row, org, opts));
    assert KeptIndices(table, row => Wanted(row, org, opts)) == set i | 0 <= i < |table| && Wanted(table[i], org, opts);
  }

  lemma LawfulListing(table: seq<Row>, org: string, opts: ListOptions, leq: (Value, Value) -> bool, sort: Sorter)
    requires Lawful(sort, leq) && opts.offset >= 0
    ensures var items := Listed(table, org, opts, leq, sort).items;
            SortedBy(items, ListOrder(opts, leq)) && forall row :: row in items ==> Wanted(row, org, opts)
  {
    var wanted, order := WantedRows(table, org, opts), ListOrder(opts, leq);
    var sorted := sort(wanted, order);
    assert IsOrdering(sorted, wanted, order);
    PageIsSorted(sorted, order, EffectiveLimit(opts.limit), opts.offset);
    forall row | row in Listed(table, org, opts, leq, sort).items ensures Wanted(row, org, opts) {
      assert row in sorted && row in multiset(sorted);
      assert row in wanted;
      RowsAreKept(table, row => Wanted(row, org, opts), row);
    }
  }
}

/** Reading a listing page by page: when nothing is lost or repeated. */
module Paging {
  import opened MediaTable

  function Upto(limit: nat, pages: nat, n: nat): nat {
    if limit * pages < n then limit * pages else n
  }

  /** Page number i is read while the database answers with the order orders[i]. */
  function ReadPages(orders: seq<seq<Row>>, limit: nat): seq<Row> {
    if orders == [] then []
    else ReadPages(orders[..|orders| - 1], limit) + Page(orders[|orders| - 1], limit, limit * (|orders| - 1))
  }

  /** Rows on both sides of a page boundary are never tied. */
  ghost predicate NoStraddle(ordered: seq<Row>, limit: nat, order: Order) {
    forall k: nat :: 0 < limit * k < |ordered| ==>
      !order.Tied(ordered[limit * k - 1], ordered[limit * k])
  }

  lemma PageStep(ordered: seq<Row>, limit: nat, pages: nat)
    requires pages > 0
    ensures ordered[..Upto(limit, pages - 1, |ordered|)] + Page(ordered, limit, limit * (pages - 1)) ==
            ordered[..Upto(limit, pages, |ordered|)]
    ensures Upto(limit, pages - 1, |ordered|) <= Upto(limit, pages, |ordered|)
  {
    assert limit * pages == limit * (pages - 1) + limit;
  }

  // ---------------------------------------------------------------------------
  // A fixed order
  // ---------------------------------------------------------------------------

  /** With one and the same order for every page, consecutive pages concatenate to the whole listing. */
  lemma {:induction false} FixedOrderPages(ordered: seq<Row>, limit: nat, pages: nat)
    ensures ReadPages(seq(pages, _ => ordered), limit) == ordered[..Upto(limit, pages, |ordered|)]
    ensures limit * pages >= |ordered| ==> ReadPages(seq(pages, _ => ordered), limit) == ordered
  {
    if pages > 0 {
      var orders := seq(pages, _ => ordered);
      assert orders[..pages - 1] == seq(pages - 1, _ => ordered);
      FixedOrderPages(ordered, limit, pages - 1);
      PageStep(ordered, limit, pages);
    }
  }

  // ---------------------------------------------------------------------------
  // Orders that change between the pages
  // ---------------------------------------------------------------------------

  function Kept(rows: seq<Row>, keep: Row -> bool): seq<Row> {
    if rows == [] then [] else (if keep(rows[0]) then [rows[0]] else []) + Kept(rows[1..], keep)
  }

  lemma {:induction false} KeptCount(rows: seq<Row>, keep: Row -> bool, row: Row)
    ensures multiset(Kept(rows, keep))[row] == if keep(row) then multiset(rows)[row] else 0
  {
    if rows != [] {
      KeptCount(rows[1..], keep, row);
      assert rows == [rows[0]] + rows[1..];
    }
  }

  lemma SameKept(a: seq<Row>, b: seq<Row>, keep: Row -> bool)
    requires multiset(a) == multiset(b)
    ensures multiset(Kept(a, keep)) == multiset(Kept(b, keep)) && |Kept(a, keep)| == |Kept(b, keep)|
  {
    forall row ensures multiset(Kept(a, keep))[row] == multiset(Kept(b, keep))[row] {
      KeptCount(a, keep, row);
      KeptCount(b, keep, row);
    }
    assert multiset(Kept(a, keep)) == multiset(Kept(b, keep));
    assert |multiset(Kept(a, keep))| == |Kept(a, keep)| && |multiset(Kept(b, keep))| == |Kept(b, keep)|;
  }

  /** A property that only ever gets lost along the sequence keeps a prefix. */
  lemma {:induction false} KeptPrefix(rows: seq<Row>, keep: Row -> bool)
    requires forall i, j :: 0 <= i <= j < |rows| && keep(rows[j]) ==> keep(rows[i])
    ensures |Kept(rows, keep)| <= |rows| && Kept(rows, keep) == rows[..|Kept(rows, keep)|]
  {
    if rows != [] {
      KeptPrefix(rows[1..], keep);
      if !keep(rows[0]) {
        assert forall j :: 0 <= j < |rows| ==> !keep(rows[j]);
        NothingKept(rows, keep);
      }
    }
  }

  lemma {:induction false} NothingKept(rows: seq<Row>, keep: Row -> bool)
    requires forall i :: 0 <= i < |rows| ==> !keep(rows[i])
    ensures Kept(rows, keep) == []
  {
    if rows != [] {
      NothingKept(rows[1..], keep);
    }
  }

  lemma {:induction false} KeptExactly(rows: seq<Row>, keep: Row -> bool, k: nat)
    requires k <= |rows| && forall i :: 0 <= i < |rows| ==> (keep(rows[i]) <==> i < k)
    ensures |Kept(rows, keep)| == k
  {
    if rows != [] {
      if k == 0 {
        NothingKept(rows, keep);
      } else {
        KeptExactly(rows[1..], keep, k - 1);
      }
    }
  }

  /** Two orderings of the same rows agree on which rows come before a boundary that no tie straddles. */
  lemma SamePrefix(a: seq<Row>, b: seq<Row>, order: Order, k: nat)
    requires TotalPreorder(order.leq) && SortedBy(a, order) && SortedBy(b, order) && multiset(a) == multiset(b)
    requires k <= |a|
    requires 0 < k < |a| ==> !order.Tied(a[k - 1], a[k])
    ensures |a| == |b| && multiset(a[..k]) == multiset(b[..k])
  {
    assert |multiset(a)| == |a| && |multiset(b)| == |b|;
    if k == |a| {
      assert a[..k] == a && b[..k] == b;
    } else if k > 0 {
      var pivot := a[k - 1];
      var keep := row => order.Before(row, pivot);
      forall i | 0 <= i < |a| ensures keep(a[i]) <==> i < k {
        if i < k {
          assert order.Before(a[i], a[k - 1]);
        } else {
          assert order.Before(a[k - 1], a[k]) && order.Before(a[k], a[i]);
        }
      }
      KeptExactly(a, keep, k);
      KeptPrefix(a, keep);
      forall i, j | 0 <= i <= j < |b| && keep(b[j]) ensures keep(b[i]) {
        assert order.Before(b[i], b[j]);
      }
      KeptPrefix(b, keep);
      SameKept(a, b, keep);
    }
  }

  /** Every order that pages are read in is an ordering of the same rows. */
  ghost predicate AllOrderings(orders: seq<seq<Row>>, rows: seq<Row>, order: Order) {
    forall i :: 0 <= i < |orders| ==> IsOrdering(orders[i], rows, order)
  }

  lemma BoundaryPrefix(a: seq<Row>, b: seq<Row>, rows: seq<Row>, order: Order, limit: nat, k: nat)
    requires TotalPreorder(order.leq) && IsOrdering(a, rows, order) && IsOrdering(b, rows, order)
    requires NoStraddle(a, limit, order)
    ensures |a| == |b| && multiset(a[..Upto(limit, k, |a|)]) == multiset(b[..Upto(limit, k, |a|)])
  {
    if 0 < limit * k < |a| {
      SamePrefix(a, b, order, limit * k);
    } else {
      SamePrefix(a, b, order, Upto(limit, k, |a|));
    }
  }

  /** If no tie straddles a page boundary, the pages hold every row exactly once, however the database breaks
      ties from one page to the next. */
  lemma {:induction false} PagesAreComplete(
    a: seq<Row>, orders: seq<seq<Row>>, rows: seq<Row>, order: Order, limit: nat)
    requires TotalPreorder(order.leq) && IsOrdering(a, rows, order) && AllOrderings(orders, rows, order)
    requires NoStraddle(a, limit, order)
    ensures multiset(ReadPages(orders, limit)) == multiset(a[..Upto(limit, |orders|, |a|)])
    ensures limit * |orders| >= |rows| ==> multiset(ReadPages(orders, limit)) == multiset(rows)
  {
    FirstPages(a, orders, rows, order, limit);
    assert |multiset(a)| == |a| && |multiset(rows)| == |rows|;
    assert a[..|a|] == a;
  }

  lemma {:induction false} FirstPages(
    a: seq<Row>, orders: seq<seq<Row>>, rows: seq<Row>, order: Order, limit: nat)
    requires TotalPreorder(order.leq) && IsOrdering(a, rows, order) && AllOrderings(orders, rows, order)
    requires NoStraddle(a, limit, order)
    ensures multiset(ReadPages(orders, limit)) == multiset(a[..Upto(limit, |orders|, |a|)])
  {
    if orders != [] {
      var m := |orders|;
      var b := orders[m - 1];
      assert IsOrdering(b, rows, order) && AllOrderings(orders[..m - 1], rows, order);
      hide IsOrdering, NoStraddle, AllOrderings, TotalPreorder, Page;
      FirstPages(a, orders[..m - 1], rows, order, limit);
      BoundaryPrefix(a, b, rows, order, limit, m - 1);
      BoundaryPrefix(a, b, rows, order, limit, m);
      PageStep(b, limit, m);
      hide Upto;
      assert multiset(b[..Upto(limit, m, |b|)]) ==
             multiset(b[..Upto(limit, m - 1, |b|)]) + multiset(Page(b, limit, limit * (m - 1)));
    } else {
      assert a[..Upto(limit, 0, |a|)] == [];
    }
  }

  /** If a tie does straddle a boundary, swapping the tied rows is a lawful order too; reading the page before
      the boundary in one order and the page after it in the other shows one row twice and the other never. */
  lemma TiedPagesLoseARow(a: seq<Row>, rows: seq<Row>, order: Order, limit: nat, k: nat)
    returns (b: seq<Row>)
    requires IsOrdering(a, rows, order) && TotalPreorder(order.leq)
    requires limit > 0 && k > 0 && limit * k < |a| && order.Tied(a[limit * k - 1], a[limit * k])
    requires forall i, j :: 0 <= i < j < |a| ==> a[i] != a[j]
    ensures IsOrdering(b, rows, order)
    ensures a[limit * k - 1] in Page(a, limit, limit * (k - 1)) && a[limit * k - 1] in Page(b, limit, limit * k)
    ensures a[limit * k] !in Page(a, limit, limit * (k - 1)) && a[limit * k] !in Page(b, limit, limit * k)
  {
    var n := limit * k;
    assert limit * (k - 1) == n - limit;
    b := Swapped(a, n);
    SwapKeepsRows(a, n);
    forall i, j | 0 <= i <= j < |b| ensures order.Before(b[i], b[j]) {
      SwapKeepsOrder(a, order, n, i, j);
    }
    SwappedPages(a, limit, n);
  }

  function Swapped(a: seq<Row>, n: nat): seq<Row>
    requires 0 < n < |a|
  {
    a[n - 1 := a[n]][n := a[n - 1]]
  }

  lemma SwappedPages(a: seq<Row>, limit: nat, n: nat)
    requires 0 < limit <= n < |a|
    requires forall i, j :: 0 <= i < j < |a| ==> a[i] != a[j]
    ensures a[n - 1] in Page(a, limit, n - limit) && a[n] !in Page(a, limit, n - limit)
    ensures a[n - 1] in Page(Swapped(a, n), limit, n) && a[n] !in Page(Swapped(a, n), limit, n)
  {
    var page, page' := Page(a, limit, n - limit), Page(Swapped(a, n), limit, n);
    assert page == a[n - limit..n] && page[limit - 1] == a[n - 1];
    assert page'[0] == a[n - 1];
    forall i | 0 <= i < |page'| ensures page'[i] != a[n] {
      assert page'[i] == Swapped(a, n)[n + i];
    }
  }

  lemma SwapKeepsRows(a: seq<Row>, n: nat)
    requires 0 < n < |a|
    ensures multiset(Swapped(a, n)) == multiset(a)
  {
  }

  lemma SwapKeepsOrder(a: seq<Row>, order: Order, n: nat, i: nat, j: nat)
    requires TotalPreorder(order.leq) && SortedBy(a, order) && 0 < n < |a| && order.Tied(a[n - 1], a[n])
    requires i <= j < |a|
    ensures order.Before(Swapped(a, n)[i], Swapped(a, n)[j])
  {
    var i' := if i == n - 1 then n else if i == n then n - 1 else i;
    var j' := if j == n - 1 then n else if j == n then n - 1 else j;
    if i' <= j' {
      assert order.Before(a[i'], a[j']);
    } else {
      assert i' == n && j' == n - 1;
    }
  }
}

/** Reading a listing through `List`, one request per page. */
module ListPaging {
  import opened MediaTable
  import opened MediaList
  import opened Paging

  /** The items of all pages together: page k is asked for with offset step * k and answered while the database
      sorts as sorters[k] does. */
  function ReadListings(table: seq<Row>, org: string, opts: ListOptions, leq: (Value, Value) -> bool,
                        sorters: seq<Sorter>, step: nat): seq<Row>
  {
    if sorters == [] then []
    else
      var k := |sorters| - 1;
      assert step * k >= 0;
      ReadListings(table, org, opts, leq, sorters[..k], step)
      + Listed(table, org, opts.(offset := step * k), leq, sorters[k]).items
  }

  /** The items of page k, for a client that steps by the effective limit. */
  function ItemsOf(table: seq<Row>, org: string, opts: ListOptions, leq: (Value, Value) -> bool,
                   sort: Sorter, k: nat): seq<Row>
  {
    OffsetIsForThePage(table, org, opts, leq, sort, EffectiveLimit(opts.limit) * k);
    Listed(table, org, opts.(offset := EffectiveLimit(opts.limit) * k), leq, sort).items
  }

  /** A database that sorts the same way every time. */
  function Same(sort: Sorter, pages: nat): (sorters: seq<Sorter>)
    ensures |sorters| == pages && forall i :: 0 <= i < pages ==> sorters[i] == sort
  {
    seq(pages, _ => sort)
  }

  /** The sorted wanted rows, for each page. */
  function Orders(table: seq<Row>, org: string, opts: ListOptions, leq: (Value, Value) -> bool,
                  sorters: seq<Sorter>): (orders: seq<seq<Row>>)
    ensures |orders| == |sorters|
  {
    seq(|sorters|, i requires 0 <= i < |sorters| => SortedWanted(table, org, opts, leq, sorters[i]))
  }

  lemma OffsetIsForThePage(table: seq<Row>, org: string, opts: ListOptions, leq: (Value, Value) -> bool,
                           sort: Sorter, offset: nat)
    ensures Listed(table, org, opts.(offset := offset), leq, sort) ==
            Listing(Page(SortedWanted(table, org, opts, leq, sort), EffectiveLimit(opts.limit), offset),
                    |WantedRows(table, org, opts)|)
  {
    var opts' := opts.(offset := offset);
    SameRows(table, row => Wanted(row, org, opts'), row => Wanted(row, org, opts));
    assert WantedRows(table, org, opts') == WantedRows(table, org, opts);
  }

  lemma {:induction false} ListingsArePages(
    table: seq<Row>, org: string, opts: ListOptions, leq: (Value, Value) -> bool, sorters: seq<Sorter>)
    ensures ReadListings(table, org, opts, leq, sorters, EffectiveLimit(opts.limit)) ==
            ReadPages(Orders(table, org, opts, leq, sorters), EffectiveLimit(opts.limit))
  {
    hide Listed, SortedWanted, EffectiveLimit, Page;
    if sorters != [] {
      var k := |sorters| - 1;
      ListingsArePages(table, org, opts, leq, sorters[..k]);
      OffsetIsForThePage(table, org, opts, leq, sorters[k], EffectiveLimit(opts.limit) * k);
      assert Orders(table, org, opts, leq, sorters)[..k] == Orders(table, org, opts, leq, sorters[..k]);
    }
  }

  /** Listings stepped by the effective limit, from a database that always sorts the same way, are together the
      sorted wanted rows. */
  lemma ListingsConcatenate(
    table: seq<Row>, org: string, opts: ListOptions, leq: (Value, Value) -> bool, sort: Sorter, pages: nat)
    requires EffectiveLimit(opts.limit) * pages >= |SortedWanted(table, org, opts, leq, sort)|
    ensures ReadListings(table, org, opts, leq, Same(sort, pages), EffectiveLimit(opts.limit)) ==
            SortedWanted(table, org, opts, leq, sort)
  {
    var sorters := Same(sort, pages);
    ListingsArePages(table, org, opts, leq, sorters);
    var sorted := SortedWanted(table, org, opts, leq, sort);
    assert Orders(table, org, opts, leq, sorters) == seq(pages, _ => sorted);
    FixedOrderPages(sorted, EffectiveLimit(opts.limit), pages);
  }

  /** If no tie straddles a page boundary, the listings hold every wanted row exactly once, however the database
      breaks ties from one request to the next. */
  lemma ListingsAreComplete(
    table: seq<Row>, org: string, opts: ListOptions, leq: (Value, Value) -> bool, sort: Sorter, sorters: seq<Sorter>)
    requires TotalPreorder(leq) && Lawful(sort, leq)
    requires forall i :: 0 <= i < |sorters| ==> Lawful(sorters[i], leq)
    requires NoStraddle(SortedWanted(table, org, opts, leq, sort), EffectiveLimit(opts.limit), ListOrder(opts, leq))
    requires EffectiveLimit(opts.limit) * |sorters| >= |WantedRows(table, org, opts)|
    ensures multiset(ReadListings(table, org, opts, leq, sorters, EffectiveLimit(opts.limit))) ==
            multiset(WantedRows(table, org, opts))
  {
    var wanted, order := WantedRows(table, org, opts), ListOrder(opts, leq);
    var orders := Orders(table, org, opts, leq, sorters);
    ListingsArePages(table, org, opts, leq, sorters);
    forall i | 0 <= i < |orders| ensures IsOrdering(orders[i], wanted, order) {
      assert Lawful(sorters[i], leq);
    }
    PagesAreComplete(SortedWanted(table, org, opts, leq, sort), orders, wanted, order, EffectiveLimit(opts.limit));
  }

  /** If one does, there is a lawful database that answers the page after the boundary so that, with page k before
      it, one row is shown twice and another never. */
  lemma TiedListingsLoseARow(
    table: seq<Row>, org: string, opts: ListOptions, leq: (Value, Value) -> bool, sort: Sorter, k: nat)
    returns (sort': Sorter)
    requires TotalPreorder(leq) && Lawful(sort, leq)
    requires var n, a := EffectiveLimit(opts.limit) * (k + 1), SortedWanted(table, org, opts, leq, sort);
             && 0 < n < |a| && ListOrder(opts, leq).Tied(a[n - 1], a[n])
             && forall i, j :: 0 <= i < j < |a| ==> a[i] != a[j]
    ensures Lawful(sort', leq)
    ensures var n, a := EffectiveLimit(opts.limit) * (k + 1), SortedWanted(table, org, opts, leq, sort);
            var before := ItemsOf(table, org, opts, leq, sort, k);
            var after := ItemsOf(table, org, opts, leq, sort', k + 1);
            a[n - 1] in before && a[n - 1] in after && a[n] !in before && a[n] !in after
  {
    var limit, a := EffectiveLimit(opts.limit), SortedWanted(table, org, opts, leq, sort);
    var wanted, order := WantedRows(table, org, opts), ListOrder(opts, leq);
    assert IsOrdering(a, wanted, order);
    hide IsOrdering, Page, WantedRows, EffectiveLimit, Lawful, TotalPreorder;
    var b := TiedPagesLoseARow(a, wanted, order, limit, k + 1);
    sort' := Instead(sort, leq, wanted, order, b);
    OffsetIsForThePage(table, org, opts, leq, sort, limit * k);
    OffsetIsForThePage(table, org, opts, leq, sort', limit * (k + 1));
  }

  /** A lawful database that sorts some rows in another lawful way. */
  lemma Instead(sort: Sorter, leq: (Value, Value) -> bool, wanted: seq<Row>, order: Order, b: seq<Row>)
    returns (sort': Sorter)
    requires Lawful(sort, leq) && order.leq == leq && IsOrdering(b, wanted, order)
    ensures Lawful(sort', leq) && sort'(wanted, order) == b
  {
    hide IsOrdering;
    sort' := (rows, o: Order) =>
      if rows == wanted && o.col == order.col && o.descending == order.descending then b else sort(rows, o);
    forall rows, o: Order | o.leq == leq ensures IsOrdering(sort'(rows, o), rows, o) {
      assert IsOrdering(sort(rows, o), rows, o);
      assert o.col == order.col && o.descending == order.descending ==> o == order;
    }
  }

  // ---------------------------------------------------------------------------
  // Stepping by the limit that was asked for
  // ---------------------------------------------------------------------------

  function ReadSteps(rows: seq<Row>, limit: nat, step: nat, pages: nat): seq<Row> {
    if pages == 0 then [] else ReadSteps(rows, limit, step, pages - 1) + Page(rows, limit, step * (pages - 1))
  }

  lemma OneMoreListing(
    table: seq<Row>, org: string, opts: ListOptions, leq: (Value, Value) -> bool, sort: Sorter, step: nat, k: nat)
    ensures ReadListings(table, org, opts, leq, Same(sort, k + 1), step) ==
            ReadListings(table, org, opts, leq, Same(sort, k), step)
            + Page(SortedWanted(table, org, opts, leq, sort), EffectiveLimit(opts.limit), step * k)
  {
    hide Listed, SortedWanted, EffectiveLimit, Page;
    assert Same(sort, k + 1)[..k] == Same(sort, k);
    OffsetIsForThePage(table, org, opts, leq, sort, step * k);
  }

  lemma OneMoreStep(rows: seq<Row>, limit: nat, step: nat, k: nat)
    ensures ReadSteps(rows, limit, step, k + 1) == ReadSteps(rows, limit, step, k) + Page(rows, limit, step * k)
  {
  }

  lemma {:induction false} ListingsAreSteps(
    table: seq<Row>, org: string, opts: ListOptions, leq: (Value, Value) -> bool, sort: Sorter, step: nat, pages: nat)
    ensures ReadListings(table, org, opts, leq, Same(sort, pages), step) ==
            ReadSteps(SortedWanted(table, org, opts, leq, sort), EffectiveLimit(opts.limit), step, pages)
  {
    if pages > 0 {
      hide *;
      OneMoreListing(table, org, opts, leq, sort, step, pages - 1);
      OneMoreStep(SortedWanted(table, org, opts, leq, sort), EffectiveLimit(opts.limit), step, pages - 1);
      ListingsAreSteps(table, org, opts, leq, sort, step, pages - 1);
    }
  }

  lemma PageLength(rows: seq<Row>, limit: nat, offset: nat)
    ensures |Page(rows, limit, offset)| <= limit
    ensures |Page(rows, limit, offset)| <= if offset < |rows| then |rows| - offset else 0
  {
  }

  /** Steps longer than the pages leave gaps: the first one leaves step - limit rows, or all that there are. */
  lemma {:induction false} LongStepsSkip(rows: seq<Row>, limit: nat, step: nat, pages: nat)
    requires limit < step && pages > 0 && limit < |rows|
    ensures |ReadSteps(rows, limit, step, pages)| <=
            Upto(step, pages, |rows|) - (if step < |rows| then step - limit else |rows| - limit)
  {
    OneMoreStep(rows, limit, step, pages - 1);
    hide ReadSteps, Page;
    PageLength(rows, limit, step * (pages - 1));
    var before := |ReadSteps(rows, limit, step, pages - 1)|;
    if pages > 1 {
      LongStepsSkip(rows, limit, step, pages - 1);
      StepsGrow(step, pages);
    } else {
      NoSteps(rows, limit, step);
    }
    StepsAdd(step, pages);
  }

  lemma NoSteps(rows: seq<Row>, limit: nat, step: nat)
    ensures ReadSteps(rows, limit, step, 0) == []
  {
  }

  lemma StepsAdd(step: nat, pages: nat)
    requires pages > 0
    ensures step * pages == step * (pages - 1) + step
  {
  }

  lemma StepsGrow(step: nat, pages: nat)
    requires pages > 1
    ensures step * (pages - 1) >= step
  {
    StepsAdd(step, pages - 1);
  }

  lemma {:induction false} OnePageIsEnough(rows: seq<Row>, limit: nat, step: nat, pages: nat)
    requires |rows| <= limit <= step && 0 < step && pages > 0
    ensures ReadSteps(rows, limit, step, pages) == rows
  {
    if pages > 1 {
      OnePageIsEnough(rows, limit, step, pages - 1);
      assert step * (pages - 1) == step * (pages - 2) + step >= |rows|;
    } else {
      assert ReadSteps(rows, limit, step, 0) == [];
      if rows != [] {
        assert Page(rows, limit, step * 0) == rows;
      }
    }
  }

  /** A client that steps by the limit it asks for reads all wanted rows if and only if that limit is at most 100,
      or one page of 50 holds them all: larger limits silently become 50. */
  lemma OwnLimitReadsAllIff(
    table: seq<Row>, org: string, opts: ListOptions, leq: (Value, Value) -> bool, sort: Sorter, pages: nat)
    requires opts.limit >= 1 && pages > 0 && opts.limit * pages >= |SortedWanted(table, org, opts, leq, sort)|
    ensures ReadListings(table, org, opts, leq, Same(sort, pages), opts.limit) ==
            SortedWanted(table, org, opts, leq, sort) <==>
            opts.limit <= 100 || |SortedWanted(table, org, opts, leq, sort)| <= 50
  {
    var rows := SortedWanted(table, org, opts, leq, sort);
    if opts.limit <= 100 {
      ListingsConcatenate(table, org, opts, leq, sort, pages);
    } else {
      ListingsAreSteps(table, org, opts, leq, sort, opts.limit, pages);
      if |rows| <= 50 {
        OnePageIsEnough(rows, 50, opts.limit, pages);
      } else {
        LongStepsSkip(rows, 50, opts.limit, pages);
      }
    }
  }
}

/** `MediaRepository.Update`: a partial update built from the fields that are supplied. */
module MediaUpdate {
  import opened Options
  import opened MediaTable
  import opened MediaList

  datatype UpdateFields = UpdateFields(
    alt: Option<string>, caption: Option<string>, description: Option<string>, isPrivate: Option<bool>,
    thumbnailUrl: Option<string>, width: Option<int>, height: Option<int>, fileSize: Option<int>,
    mimeType: Option<string>, duration: Option<int>)

  /** UPDATE media_files SET <sets> WHERE <where>. */
  datatype Statement = Statement(sets: seq<(Column, nat)>, where: seq<Cond>)

  function Assign(row: Row, sets: seq<(Column, nat)>, args: seq<Value>): Row {
    if sets == [] then row
    else Assign(row, sets[..|sets| - 1], args)[sets[|sets| - 1].0 := Arg(args, sets[|sets| - 1].1)]
  }

  function Execute(stmt: Statement, args: seq<Value>, table: seq<Row>): (r: seq<Row>)
    ensures |r| == |table|
  {
    seq(|table|, i requires 0 <= i < |table| =>
      if Selected(stmt.where, table[i], args) then Assign(table[i], stmt.sets, args) else table[i])
  }

  // ---------------------------------------------------------------------------
  // What the fields ask for
  // ---------------------------------------------------------------------------

  function Supplied(f: UpdateFields, col: Column): Option<Value> {
    match col
    case Alt => MapText(f.alt)
    case Caption => MapText(f.caption)
    case Description => MapText(f.description)
    case IsPrivate => if f.isPrivate.Some? then Some(Bool(f.isPrivate.value)) else None
    case ThumbnailUrl => MapText(f.thumbnailUrl)
    case Width => MapInt(f.width)
    case Height => MapInt(f.height)
    case FileSize => MapInt(f.fileSize)
    case MimeType => MapText(f.mimeType)
    case Duration => MapInt(f.duration)
    case _ => None
  }

  function MapText(s: Option<string>): Option<Value> {
    if s.Some? then Some(Text(s.value)) else None
  }

  function MapInt(n: Option<int>): Option<Value> {
    if n.Some? then Some(Int(n.value)) else None
  }

  ghost predicate Anything(f: UpdateFields) {
    exists col :: Supplied(f, col).Some?
  }

  predicate IsRow(row: Row, id: string, org: string) {
    Get(row, Id) == Text(id) && Get(row, OrganizationId) == Text(org)
  }

  /** The row after the update: supplied columns and `updated_at` are new, the others are as before. */
  ghost predicate Updated(row: Row, row': Row, f: UpdateFields, now: int) {
    forall col :: Get(row', col) ==
      if Supplied(f, col).Some? then Supplied(f, col).value
      else if col == UpdatedAt then Time(now)
      else Get(row, col)
  }

  // ---------------------------------------------------------------------------
  // The builder
  // ---------------------------------------------------------------------------

  class Builder {
    var sets: seq<(Column, nat)>
    var args: seq<Value>
    var argIdx: nat

    /** The i-th assignment uses the i-th argument. */
    ghost predicate Valid()
      reads this
    {
      argIdx == |args| + 1 && Numbered(sets, |args|)
    }

    constructor ()
      ensures Valid() && sets == [] && args == []
    {
      sets, args, argIdx := [], [], 1;
    }

    method AddField(col: Column, val: Value)
      requires Valid()
      modifies this
      ensures Valid() && sets == old(sets) + [(col, old(argIdx))] && args == old(args) + [val]
    {
      sets := sets + [(col, argIdx)];
      args := args + [val];
      argIdx := argIdx + 1;
    }

    /** The first three optional fields, in the order of the source. */
    method AddTexts(f: UpdateFields)
      requires Valid() && Covers(sets, args, f, UPDATABLE)
      modifies this
      ensures Valid() && Covers(sets, args, f, AFTER_TEXTS)
    {
      hide Covers, Numbered, Supplied;
      SuppliedFields(f);
      ghost var before, rest := (sets, args), UPDATABLE;
      if f.alt.Some? {
        AddField(Alt, Text(f.alt.value));
      }
      FieldDone(before, sets, args, f, rest, Alt);
      before, rest := (sets, args), rest - {Alt};
      if f.caption.Some? {
        AddField(Caption, Text(f.caption.value));
      }
      FieldDone(before, sets, args, f, rest, Caption);
      before, rest := (sets, args), rest - {Caption};
      if f.description.Some? {
        AddField(Description, Text(f.description.value));
      }
      FieldDone(before, sets, args, f, rest, Description);
      before, rest := (sets, args), rest - {Description};
      assert rest == AFTER_TEXTS;
    }

    /** The next three. */
    method AddAccess(f: UpdateFields)
      requires Valid() && Covers(sets, args, f, AFTER_TEXTS)
      modifies this
      ensures Valid() && Covers(sets, args, f, AFTER_ACCESS)
    {
      hide Covers, Numbered, Supplied;
      SuppliedFields(f);
      ghost var before, rest := (sets, args), AFTER_TEXTS;
      if f.isPrivate.Some? {
        AddField(IsPrivate, Bool(f.isPrivate.value));
      }
      FieldDone(before, sets, args, f, rest, IsPrivate);
      before, rest := (sets, args), rest - {IsPrivate};
      if f.thumbnailUrl.Some? {
        AddField(ThumbnailUrl, Text(f.thumbnailUrl.value));
      }
      FieldDone(before, sets, args, f, rest, ThumbnailUrl);
      before, rest := (sets, args), rest - {ThumbnailUrl};
      if f.width.Some? {
        AddField(Width, Int(f.width.value));
      }
      FieldDone(before, sets, args, f, rest, Width);
      before, rest := (sets, args), rest - {Width};
      assert rest == AFTER_ACCESS;
    }

    /** The last four. */
    method AddMeasures(f: UpdateFields)
      requires Valid() && Covers(sets, args, f, AFTER_ACCESS)
      modifies this
      ensures Valid() && Covers(sets, args, f, {})
    {
      hide Covers, Numbered, Supplied;
      SuppliedFields(f);
      ghost var before, rest := (sets, args), AFTER_ACCESS;
      if f.height.Some? {
        AddField(Height, Int(f.height.value));
      }
      FieldDone(before, sets, args, f, rest, Height);
      before, rest := (sets, args), rest - {Height};
      if f.fileSize.Some? {
        AddField(FileSize, Int(f.fileSize.value));
      }
      FieldDone(before, sets, args, f, rest, FileSize);
      before, rest := (sets, args), rest - {FileSize};
      if f.mimeType.Some? {
        AddField(MimeType, Text(f.mimeType.value));
      }
      FieldDone(before, sets, args, f, rest, MimeType);
      before, rest := (sets, args), rest - {MimeType};
      if f.duration.Some? {
        AddField(Duration, Int(f.duration.value));
      }
      FieldDone(before, sets, args, f, rest, Duration);
      before, rest := (sets, args), rest - {Duration};
      assert rest == {};
    }
  }

  /** The value that the assignments give to a column. */
  ghost function Assigned(sets: seq<(Column, nat)>, args: seq<Value>, col: Column): Option<Value> {
    if sets == [] then None
    else if sets[|sets| - 1].0 == col then Some(Arg(args, sets[|sets| - 1].1))
    else Assigned(sets[..|sets| - 1], args, col)
  }

  /** Every column outside `rest` that the fields supply is assigned its value, and nothing else is. */
  ghost predicate Covers(sets: seq<(Column, nat)>, args: seq<Value>, f: UpdateFields, rest: set<Column>) {
    forall col :: Assigned(sets, args, col) == if col in rest then None else Supplied(f, col)
  }

  lemma NothingCovered(f: UpdateFields)
    ensures Covers([], [], f, UPDATABLE)
  {
  }

  ghost predicate Numbered(sets: seq<(Column, nat)>, n: nat) {
    |sets| == n && forall i :: 0 <= i < |sets| ==> sets[i].1 == i + 1
  }

  lemma {:induction false} AssignedMore(sets: seq<(Column, nat)>, args: seq<Value>, more: seq<Value>, col: Column)
    requires forall i :: 0 <= i < |sets| ==> 1 <= sets[i].1 <= |args|
    ensures Assigned(sets, args + more, col) == Assigned(sets, args, col)
  {
    if sets != [] {
      AssignedMore(sets[..|sets| - 1], args, more, col);
      assert Arg(args + more, sets[|sets| - 1].1) == Arg(args, sets[|sets| - 1].1);
    }
  }

  lemma AssignedSnoc(sets: seq<(Column, nat)>, args: seq<Value>, col: Column, val: Value, c: Column)
    requires Numbered(sets, |args|)
    ensures Assigned(sets + [(col, |args| + 1)], args + [val], c) ==
            if c == col then Some(val) else Assigned(sets, args, c)
  {
    assert (sets + [(col, |args| + 1)])[..|sets|] == sets;
    AssignedMore(sets, args, [val], c);
  }

  /** The column of each field. */
  lemma SuppliedFields(f: UpdateFields)
    ensures Supplied(f, Alt) == MapText(f.alt) && Supplied(f, Caption) == MapText(f.caption)
    ensures Supplied(f, Description) == MapText(f.description) && Supplied(f, ThumbnailUrl) == MapText(f.thumbnailUrl)
    ensures Supplied(f, IsPrivate) == if f.isPrivate.Some? then Some(Bool(f.isPrivate.value)) else None
    ensures Supplied(f, Width) == MapInt(f.width) && Supplied(f, Height) == MapInt(f.height)
    ensures Supplied(f, FileSize) == MapInt(f.fileSize) && Supplied(f, Duration) == MapInt(f.duration)
    ensures Supplied(f, MimeType) == MapText(f.mimeType)
  {
  }

  /** A field has been dealt with: it was assigned exactly if it is supplied. */
  lemma FieldDone(before: (seq<(Column, nat)>, seq<Value>), sets: seq<(Column, nat)>, args: seq<Value>,
                  f: UpdateFields, rest: set<Column>, col: Column)
    requires Numbered(before.0, |before.1|) && Covers(before.0, before.1, f, rest) && col in rest
    requires (sets, args) == if Supplied(f, col).Some?
                             then (before.0 + [(col, |before.1| + 1)], before.1 + [Supplied(f, col).value])
                             else before
    ensures Covers(sets, args, f, rest - {col})
  {
    if Supplied(f, col).Some? {
      forall c ensures Assigned(sets, args, c) ==
                       if c == col then Supplied(f, col) else Assigned(before.0, before.1, c) {
        AssignedSnoc(before.0, before.1, col, Supplied(f, col).value, c);
      }
    }
  }

  lemma {:induction false} AssignMeans(row: Row, sets: seq<(Column, nat)>, args: seq<Value>, col: Column)
    ensures Get(Assign(row, sets, args), col) ==
            if Assigned(sets, args, col).Some? then Assigned(sets, args, col).value else Get(row, col)
  {
    if sets != [] {
      AssignMeans(row, sets[..|sets| - 1], args, col);
    }
  }

  const UPDATABLE: set<Column> :=
    {Alt, Caption, Description, IsPrivate, ThumbnailUrl, Width, Height, FileSize, MimeType, Duration}

  const AFTER_TEXTS: set<Column> := {IsPrivate, ThumbnailUrl, Width, Height, FileSize, MimeType, Duration}

  const AFTER_ACCESS: set<Column> := {Height, FileSize, MimeType, Duration}

  /** The WHERE clause of the update, with its two arguments after those of the assignments. */
  lemma WhereMeans(args: seq<Value>, id: string, org: string, row: Row)
    ensures var n := |args| + 1;
            Selected([Equals(Id, n), Equals(OrganizationId, n + 1)], row, args + [Text(id), Text(org)]) <==>
            IsRow(row, id, org)
  {
    var n, all := |args| + 1, args + [Text(id), Text(org)];
    SelectedSnoc([], Equals(Id, n), row, all);
    SelectedSnoc([Equals(Id, n)], Equals(OrganizationId, n + 1), row, all);
    assert [] + [Equals(Id, n)] == [Equals(Id, n)];
    assert [Equals(Id, n)] + [Equals(OrganizationId, n + 1)] == [Equals(Id, n), Equals(OrganizationId, n + 1)];
    assert Arg(all, n) == Text(id) && Arg(all, n + 1) == Text(org);
  }

  /** The assignments use $1..$k in order, the WHERE clause $k+1 and $k+2, and there are k + 2 arguments. */
  ghost predicate WellNumbered(stmt: Statement, args: seq<Value>) {
    && Numbered(stmt.sets, |stmt.sets|) && |args| == |stmt.sets| + 2
    && stmt.where == [Equals(Id, |stmt.sets| + 1), Equals(OrganizationId, |stmt.sets| + 2)]
  }

  lemma StatementMeans(sets: seq<(Column, nat)>, args: seq<Value>, f: UpdateFields, now: int, id: string, org: string,
                       sets': seq<(Column, nat)>, args': seq<Value>, all: seq<Value>)
    requires Numbered(sets, |args|) && Covers(sets, args, f, {})
    requires sets' == sets + [(UpdatedAt, |args| + 1)] && args' == args + [Time(now)]
    requires all == args' + [Text(id), Text(org)]
    ensures forall row :: Selected([Equals(Id, |args'| + 1), Equals(OrganizationId, |args'| + 2)], row, all) <==>
                          IsRow(row, id, org)
    ensures forall row :: Updated(row, Assign(row, sets', all), f, now)
  {
    forall row ensures Selected([Equals(Id, |args'| + 1), Equals(OrganizationId, |args'| + 2)], row, all) <==>
                       IsRow(row, id, org) {
      WhereMeans(args', id, org, row);
    }
    forall row ensures Updated(row, Assign(row, sets', all), f, now) {
      forall col ensures Get(Assign(row, sets', all), col) ==
                         if Supplied(f, col).Some? then Supplied(f, col).value
                         else if col == UpdatedAt then Time(now) else Get(row, col) {
        AssignMeans(row, sets', all, col);
        AssignedMore(sets', args', [Text(id), Text(org)], col);
        AssignedSnoc(sets, args, UpdatedAt, Time(now), col);
      }
    }
  }

  /** The ten optional fields, in the order of the source. */
  method AddFields(f: UpdateFields) returns (b: Builder)
    ensures fresh(b) && b.Valid() && Covers(b.sets, b.args, f, {})
  {
    b := new Builder();
    NothingCovered(f);
    b.AddTexts(f);
    b.AddAccess(f);
    b.AddMeasures(f);
  }

  /** None when nothing is supplied: then no statement is sent. */
  method Build(id: string, org: string, f: UpdateFields, now: int) returns (stmt: Option<Statement>, args: seq<Value>)
    ensures stmt.None? <==> !Anything(f)
    ensures stmt.Some? ==> WellNumbered(stmt.value, args)
    ensures stmt.Some? ==> forall row :: Selected(stmt.value.where, row, args) <==> IsRow(row, id, org)
    ensures stmt.Some? ==> forall row :: Updated(row, Assign(row, stmt.value.sets, args), f, now)
  {
    hide Covers, Updated, Selected, Assign, IsRow, Anything;
    var b := AddFields(f);
    NothingAssigned(b.sets, b.args, f);
    if |b.sets| == 0 {
      return None, [];
    }
    ghost var sets', args' := b.sets, b.args;
    b.AddField(UpdatedAt, Time(now));
    stmt := Some(Statement(b.sets, [Equals(Id, b.argIdx), Equals(OrganizationId, b.argIdx + 1)]));
    args := b.args + [Text(id), Text(org)];
    StatementMeans(sets', args', f, now, id, org, b.sets, b.args, args);
  }

  lemma NothingAssigned(sets: seq<(Column, nat)>, args: seq<Value>, f: UpdateFields)
    requires Covers(sets, args, f, {})
    ensures sets == [] <==> !Anything(f)
  {
    if sets != [] {
      assert Assigned(sets, args, sets[|sets| - 1].0) == Supplied(f, sets[|sets| - 1].0);
    }
  }

  /** For every choice of fields: exactly the supplied columns and `updated_at` change, exactly on the rows
      with that id and organisation; when nothing is supplied the table is left as it is. */
  method Update(table: seq<Row>, id: string, org: string, f: UpdateFields, now: int) returns (table': seq<Row>)
    ensures |table'| == |table|
    ensures !Anything(f) ==> table' == table
    ensures forall i :: 0 <= i < |table| && !IsRow(table[i], id, org) ==> table'[i] == table[i]
    ensures forall i :: 0 <= i < |table| && IsRow(table[i], id, org) && Anything(f) ==>
              Updated(table[i], table'[i], f, now)
  {
    var stmt, args := Build(id, org, f, now);
    if stmt.None? {
      return table;
    }
    table' := Execute(stmt.value, args, table);
  }
}
