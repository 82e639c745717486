/** The argument handling of the server functions: due-date parsing shared
    by `add_todo` and `update_todo`, the empty-field checks of
    `update_todo`, and the arithmetic and row mapping of
    `get_paginated_todos` and `search_todo`. The SQL statements themselves
    belong to the database and are not modelled; the rows and the count a
    query returns, and the current date, are parameters. */
module ServerTodo {
  import opened Wrappers
  import opened MachineInt
  import opened RustStr
  import opened Calendar
  import opened Types
  import Paging

  /** Why a server function panics instead of returning. */
  datatype PanicCause = IndexOutOfBounds | ArithmeticOverflow

  /** How a server function call can fail: a `ServerFnError::Args` it
      returns, or a panic of the handler. */
  datatype ServerError = Args(message: string) | Panic(cause: PanicCause)

  const TITLE_EMPTY: string := "title cannot be empty"
  const DUE_DATE_EMPTY: string := "due_date cannot be empty"

  // ---------------------------------------------------------------------
  // Due dates

  /** The `(year, month, day)` triple assembled from the first three
      `-`-separated pieces of `dueDate`, each piece that does not parse
      replaced by the matching component of `today`. */
  function AssembledDate(dueDate: string, today: Date): (d: Date)
    requires IsValid(today)
    requires |Split(dueDate, '-')| >= 3
  {
    var ymd := Split(dueDate, '-');
    var year: I32 := ParseI32(ymd[0]).UnwrapOr(today.year);
    var month: U32 := ParseU32(ymd[1]).UnwrapOr(today.month);
    var day: U32 := ParseU32(ymd[2]).UnwrapOr(today.day);
    Date(year, month, day)
  }

  /** The due date `add_todo` and `update_todo` store for the text
      `dueDate`: split on `-`, parse the first three pieces with a
      per-component fallback to `today`, and fall back to `today` as a
      whole when the triple is not a real date. Fewer than three pieces
      (fewer than two `-`) makes the handler index past the end of the
      pieces and panic. */
  function ParseDueDate(dueDate: string, today: Date): (r: Result<Date, PanicCause>)
    requires IsValid(today)
    ensures r.Ok? <==> Count(dueDate, '-') >= 2
    ensures r.Err? ==> r.error == IndexOutOfBounds
    ensures r.Ok? ==> IsValid(r.value)
  {
    SplitLength(dueDate, '-');
    if |Split(dueDate, '-')| < 3 then Err(IndexOutOfBounds)
    else
      var d := AssembledDate(dueDate, today);
      Ok(FromYmdOpt(d.year, d.month, d.day).UnwrapOr(today))
  }

  /** The stored date is the assembled triple when that is a real date,
      and `today` otherwise. */
  lemma ParseDueDateFallsBackToToday(dueDate: string, today: Date)
    requires IsValid(today)
    requires Count(dueDate, '-') >= 2
    ensures |Split(dueDate, '-')| >= 3
    ensures IsValid(AssembledDate(dueDate, today)) ==>
              ParseDueDate(dueDate, today) == Ok(AssembledDate(dueDate, today))
    ensures !IsValid(AssembledDate(dueDate, today)) ==>
              ParseDueDate(dueDate, today) == Ok(today)
  {
    SplitLength(dueDate, '-');
  }

  /** Each piece that does not parse leaves today's component in the
      stored date, independently of the other two pieces. */
  lemma ParseDueDateComponentwise(dueDate: string, today: Date)
    requires IsValid(today)
    requires Count(dueDate, '-') >= 2
    ensures ParseDueDate(dueDate, today).Ok?
    ensures var ymd := Split(dueDate, '-');
            var d := ParseDueDate(dueDate, today).value;
            && (ParseI32(ymd[0]).None? ==> d.year == today.year)
            && (ParseU32(ymd[1]).None? ==> d.month == today.month)
            && (ParseU32(ymd[2]).None? ==> d.day == today.day)
  {
    SplitLength(dueDate, '-');
  }

  /** Only the first three pieces are consulted: anything after a third
      `-` is ignored. */
  lemma ParseDueDateIgnoresExtraPieces(dueDate: string, extra: string, today: Date)
    requires IsValid(today)
    requires Count(dueDate, '-') >= 2
    ensures ParseDueDate(dueDate + "-" + extra, today) == ParseDueDate(dueDate, today)
  {
    SplitLength(dueDate, '-');
    SplitAtSeparator(dueDate, '-', extra);
    var longer := dueDate + "-" + extra;
    assert longer == dueDate + ['-'] + extra;
    SplitLength(longer, '-');
    var ymd := Split(dueDate, '-');
    var all := Split(longer, '-');
    assert all[0] == ymd[0] && all[1] == ymd[1] && all[2] == ymd[2];
    assert AssembledDate(longer, today) == AssembledDate(dueDate, today);
  }

  /** `YYYY-MM-DD` splits into its three zero-padded components. */
  lemma SplitIso(d: Date)
    requires 0 <= d.year <= 9999 && 1 <= d.month <= 12 && 1 <= d.day <= 31
    ensures Split(FormatIso(d), '-') == [PadDecimal(d.year, 4), PadDecimal(d.month, 2), PadDecimal(d.day, 2)]
  {
    var y := PadDecimal(d.year, 4);
    var m := PadDecimal(d.month, 2);
    var dd := PadDecimal(d.day, 2);
    assert '-' !in y && '-' !in m && '-' !in dd;
    SplitWithoutSeparator(y, '-');
    SplitWithoutSeparator(m, '-');
    SplitWithoutSeparator(dd, '-');
    SplitAtSeparator(m, '-', dd);
    assert m + "-" + dd == m + ['-'] + dd;
    assert FormatIso(d) == y + ['-'] + (m + ['-'] + dd);
    SplitAtSeparator(y, '-', m + ['-'] + dd);
  }

  /** A well-formed `YYYY-MM-DD` naming a real date is stored as exactly
      that date, whatever the current date is. */
  lemma ParseDueDateIso(d: Date, today: Date)
    requires IsValid(today)
    requires IsValid(d) && 0 <= d.year <= 9999
    ensures ParseDueDate(FormatIso(d), today) == Ok(d)
  {
    SplitIso(d);
    assert Pow10(4) == 10000 && Pow10(2) == 100;
    ParseI32RoundTrip(d.year, 4);
    ParseU32RoundTrip(d.month, 2);
    ParseU32RoundTrip(d.day, 2);
    SplitLength(FormatIso(d), '-');
  }

  // ---------------------------------------------------------------------
  // add_todo and update_todo

  /** The values `add_todo` inserts. */
  datatype NewTodo = NewTodo(title: string, description: string, dueDate: Date)

  /** The values `update_todo` writes to the row `id`. */
  datatype TodoUpdate = TodoUpdate(id: I32, title: string, description: string, dueDate: Date)

  /** `add_todo`: no check on the fields at all, so an empty due date
      reaches the splitting and panics. */
  function AddTodo(title: string, description: string, dueDate: string, today: Date): (r: Result<NewTodo, ServerError>)
    requires IsValid(today)
    ensures r.Ok? <==> Count(dueDate, '-') >= 2
    ensures r.Err? ==> r.error == Panic(IndexOutOfBounds)
    ensures r.Ok? ==> r.value.title == title && r.value.description == description
    ensures r.Ok? ==> IsValid(r.value.dueDate)
    ensures r.Ok? ==> ParseDueDate(dueDate, today) == Ok(r.value.dueDate)
  {
    match ParseDueDate(dueDate, today)
    case Ok(date) => Ok(NewTodo(title, description, date))
    case Err(cause) => Err(Panic(cause))
  }

  /** `update_todo`: an empty title is refused first, then an empty due
      date; a non-empty due date with fewer than two `-` still panics. */
  function UpdateTodo(id: I32, title: string, description: string, dueDate: string, today: Date): (r: Result<TodoUpdate, ServerError>)
    requires IsValid(today)
    ensures title == "" ==> r == Err(Args(TITLE_EMPTY))
    ensures title != "" && dueDate == "" ==> r == Err(Args(DUE_DATE_EMPTY))
    ensures title != "" && dueDate != "" ==>
              (r.Ok? <==> Count(dueDate, '-') >= 2) &&
              (r.Err? ==> r.error == Panic(IndexOutOfBounds))
    ensures r.Ok? ==> r.value.id == id && r.value.title == title && r.value.description == description
    ensures r.Ok? ==> r.value.title != "" && IsValid(r.value.dueDate)
    ensures r.Ok? ==> ParseDueDate(dueDate, today) == Ok(r.value.dueDate)
  {
    if title == "" then Err(Args(TITLE_EMPTY))
    else if dueDate == "" then Err(Args(DUE_DATE_EMPTY))
    else
      match ParseDueDate(dueDate, today)
      case Ok(date) => Ok(TodoUpdate(id, title, description, date))
      case Err(cause) => Err(Panic(cause))
  }

  /** The empty string reaches `add_todo`'s splitting and panics, and so
      does `"2024"` in `update_todo`, which only guards the empty string. */
  lemma ShortDueDatesPanic(id: I32, title: string, description: string, today: Date)
    requires IsValid(today) && title != ""
    ensures AddTodo(title, description, "", today) == Err(Panic(IndexOutOfBounds))
    ensures UpdateTodo(id, title, description, "2024", today) == Err(Panic(IndexOutOfBounds))
  {
    assert Count("2024", '-') == 0;
  }

  // ---------------------------------------------------------------------
  // get_paginated_todos and search_todo

  /** The four columns the list and search queries select. */
  datatype Row = Row(id: I32, title: string, description: string, dueDate: string)

  /** The `Todo` built from each selected row: the queries only return
      incomplete records and do not select the creation time. */
  function RowsToTodos(rows: seq<Row>): (todos: seq<Todo>)
    ensures |todos| == |rows|
    ensures forall i :: 0 <= i < |rows| ==>
              && todos[i].id == rows[i].id
              && todos[i].title == rows[i].title
              && todos[i].description == rows[i].description
              && todos[i].dueDate == rows[i].dueDate
    ensures forall i :: 0 <= i < |todos| ==> !todos[i].completed && todos[i].created == None
  {
    seq(|rows|, i requires 0 <= i < |rows| =>
      Todo(rows[i].id, rows[i].title, rows[i].description, false, None, rows[i].dueDate))
  }

  /** `(page * 10) as i64`: the multiplication is done in `u32` and
      overflows for pages above 429496729; the widening to `i64` is exact. */
  function RowOffset(page: U32): (offset: Option<int>)
    ensures offset.Some? <==> page <= U32_MAX / Paging.PER_PAGE
    ensures offset.Some? ==> offset.value == page * Paging.PER_PAGE
  {
    var product :- CheckedMul(page, Paging.PER_PAGE);
    Some(product)
  }

  /** `get_paginated_todos(page)`, given the rows the page query returns
      and the record count (a non-negative `i64`) the count query returns.
      The count is cast to `u32`, keeping its low 32 bits. */
  function GetPaginatedTodos(page: U32, rows: seq<Row>, count: int): (r: Result<PaginatedTodos, ServerError>)
    requires 0 <= count <= I64_MAX
    ensures r.Ok? <==> page <= U32_MAX / Paging.PER_PAGE && count % TWO_TO_32 <= U32_MAX - Paging.PER_PAGE
    ensures r.Err? ==> r.error == Panic(ArithmeticOverflow)
    ensures r.Ok? ==> r.value.page == page
    ensures r.Ok? ==> r.value.items == RowsToTodos(rows)
    ensures r.Ok? ==> r.value.total == count % TWO_TO_32
    ensures r.Ok? && count <= U32_MAX ==> r.value.total == count
    ensures r.Ok? ==> (r.value.totalPages - 1) * Paging.PER_PAGE < r.value.total <= r.value.totalPages * Paging.PER_PAGE
  {
    match RowOffset(page)
    case None => Err(Panic(ArithmeticOverflow))
    case Some(_) =>
      var total := TruncateToU32(count);
      match Paging.TotalPages(total)
      case None => Err(Panic(ArithmeticOverflow))
      case Some(totalPages) => Ok(PaginatedTodos(RowsToTodos(rows), total, page, totalPages))
  }
}
