/** The `/api/sheets` router: who may call which route, the role-scoped and
    query-filtered attendance listing, the attendance and user writes, and
    the class list. Reads are functions of a snapshot of the tab's rows;
    writes are methods on the `Table` they change. */
module Sheet {
  import opened Common
  import opened JsStrings
  import opened Sorting
  import opened Api
  import opened Store
  import Auth

  /** `Absensi!A:E` is tanggal, nama, kelas, status, keterangan. */
  const AttendanceWidth := 5
  /** `Users!A:D` is username, password, role, kelas. */
  const UsersWidth := 4

  const AttendanceWriters := [Guru, Sekertaris]
  const TeachersOnly := [Guru]

  const InvalidIndex := Reply(400, "Index tidak valid")

  // ---------------------------------------------------------------------------
  // Role checks

  /** `checkRole(roles)`: the caller's role is one of `roles`. */
  predicate CheckRole(roles: seq<string>, role: Option<string>): (allowed: bool)
    ensures allowed <==> exists i :: 0 <= i < |roles| && role == Some(roles[i])
  {
    role.Some? && role.value in roles
  }

  /** Who may call which route: guru and sekertaris add and update
      attendance; only guru deletes attendance and manages users. */
  lemma RoutePermissions(role: Option<string>)
    ensures CheckRole(AttendanceWriters, role) <==> role == Some(Guru) || role == Some(Sekertaris)
    ensures CheckRole(TeachersOnly, role) <==> role == Some(Guru)
  {
  }

  // ---------------------------------------------------------------------------
  // GET /absensi

  /** The roles whose listing is cut down to their own class. Every other
      role, recognised or not, is not cut down. */
  predicate ClassScoped(role: Option<string>) {
    role == Some(Siswa) || role == Some(Sekertaris) || role == Some(GuruWaliMurid)
  }

  /** `row[2] === req.user.kelas`: a cell is never `null`, so a caller whose
      class is `null` is in no row's class. */
  predicate InOwnClass(who: Identity, row: Row) {
    who.kelas.Some? && Cell(row, 2) == who.kelas
  }

  predicate Visible(who: Identity, row: Row) {
    !ClassScoped(who.role) || InOwnClass(who, row)
  }

  function OwnClass(who: Identity): Row -> bool {
    row => InOwnClass(who, row)
  }

  function VisibleTo(who: Identity): Row -> bool {
    row => Visible(who, row)
  }

  /** The role filter, applied before anything the caller asks for. */
  function ScopeToRole(who: Identity, rows: seq<Row>): seq<Row> {
    if ClassScoped(who.role) then Filter(rows, OwnClass(who)) else rows
  }

  lemma ScopeToRoleIsVisibility(who: Identity, rows: seq<Row>)
    ensures ScopeToRole(who, rows) == Filter(rows, VisibleTo(who))
  {
    if ClassScoped(who.role) {
      FilterAgree(rows, OwnClass(who), VisibleTo(who));
    } else {
      FilterKeepsAll(rows, VisibleTo(who));
    }
  }

  lemma ScopeToRoleAppend(who: Identity, a: seq<Row>, b: seq<Row>)
    ensures ScopeToRole(who, a + b) == ScopeToRole(who, a) + ScopeToRole(who, b)
  {
    if ClassScoped(who.role) {
      FilterAppend(a, b, OwnClass(who));
    }
  }

  /** `new Date(text)` as a day number, `None` for an invalid date. The
      parser is a parameter: the model does not fix JavaScript's date syntax. */
  type DateParser = string -> Option<int>

  /** `req.query`: `kelas`, `startDate`, `endDate`. */
  datatype Query = Query(kelas: Option<string>, startDate: Option<string>, endDate: Option<string>)

  const NoQuery := Query(None, None, None)

  /** `new Date(row[0]) >= new Date(bound)`: false when either is invalid. */
  predicate OnOrAfter(row: Row, bound: Option<string>, parse: DateParser) {
    && Cell(row, 0).Some? && bound.Some?
    && parse(Cell(row, 0).value).Some? && parse(bound.value).Some?
    && parse(Cell(row, 0).value).value >= parse(bound.value).value
  }

  /** `new Date(row[0]) <= new Date(bound)`: false when either is invalid. */
  predicate OnOrBefore(row: Row, bound: Option<string>, parse: DateParser) {
    && Cell(row, 0).Some? && bound.Some?
    && parse(Cell(row, 0).value).Some? && parse(bound.value).Some?
    && parse(Cell(row, 0).value).value <= parse(bound.value).value
  }

  function HasClass(kelas: Option<string>): Row -> bool {
    row => Cell(row, 2) == kelas
  }

  function DatedFrom(bound: Option<string>, parse: DateParser): Row -> bool {
    row => OnOrAfter(row, bound, parse)
  }

  function DatedUntil(bound: Option<string>, parse: DateParser): Row -> bool {
    row => OnOrBefore(row, bound, parse)
  }

  /** The rows of the listing: the role filter, then each query filter that
      was given (a non-empty parameter), in the order the route applies them. */
  function SelectRows(who: Identity, q: Query, rows: seq<Row>, parse: DateParser): (selected: seq<Row>)
    ensures |selected| <= |rows|
    ensures forall row :: row in selected ==> row in rows && Visible(who, row) && MatchesQuery(q, parse, row)
  {
    var data := ScopeToRole(who, rows);
    var data := if Truthy(q.kelas) then Filter(data, HasClass(q.kelas)) else data;
    var data := if Truthy(q.startDate) then Filter(data, DatedFrom(q.startDate, parse)) else data;
    if Truthy(q.endDate) then Filter(data, DatedUntil(q.endDate, parse)) else data
  }

  /** The query filters as one predicate: an absent or empty parameter
      imposes nothing. */
  predicate MatchesQuery(q: Query, parse: DateParser, row: Row) {
    && (Truthy(q.kelas) ==> Cell(row, 2) == q.kelas)
    && (Truthy(q.startDate) ==> OnOrAfter(row, q.startDate, parse))
    && (Truthy(q.endDate) ==> OnOrBefore(row, q.endDate, parse))
  }

  function QueryFilter(q: Query, parse: DateParser): Row -> bool {
    row => MatchesQuery(q, parse, row)
  }

  /** The record each row becomes; a cell the row lacks stays `undefined`,
      except `keterangan`, which defaults to `''`. */
  datatype Record = Record(
    tanggal: Option<string>,
    nama: Option<string>,
    kelas: Option<string>,
    status: Option<string>,
    keterangan: string)

  function Format(row: Row): (rec: Record)
    ensures rec.tanggal.Some? <==> |row| > 0
    ensures rec.tanggal.Some? ==> rec.tanggal.value == row[0]
    ensures rec.nama.Some? <==> |row| > 1
    ensures rec.nama.Some? ==> rec.nama.value == row[1]
    ensures rec.kelas.Some? <==> |row| > 2
    ensures rec.kelas.Some? ==> rec.kelas.value == row[2]
    ensures rec.status.Some? <==> |row| > 3
    ensures rec.status.Some? ==> rec.status.value == row[3]
    ensures rec.keterangan == if |row| > 4 then row[4] else ""
  {
    Record(Cell(row, 0), Cell(row, 1), Cell(row, 2), Cell(row, 3), OrEmpty(Cell(row, 4)))
  }

  /** GET /absensi: the `data` of the reply. */
  function ListAttendance(who: Identity, q: Query, rows: seq<Row>, parse: DateParser): (data: seq<Record>)
    ensures |data| <= |rows|
    ensures forall i :: 0 <= i < |data| ==>
      exists row :: row in rows && Visible(who, row) && MatchesQuery(q, parse, row) && data[i] == Format(row)
  {
    var selected := SelectRows(who, q, rows, parse);
    assert forall i :: 0 <= i < |selected| ==> selected[i] in selected;
    Map(selected, Format)
  }

  lemma FilterIf(s: seq<Row>, active: bool, p: Row -> bool, g: Row -> bool)
    requires forall x :: g(x) == (active ==> p(x))
    ensures (if active then Filter(s, p) else s) == Filter(s, g)
  {
    if active {
      FilterAgree(s, p, g);
    } else {
      FilterKeepsAll(s, g);
    }
  }

  /** The chain of query filters is one filter by `MatchesQuery` over the
      role-filtered rows. */
  lemma SelectRowsIsQueryFilter(who: Identity, q: Query, rows: seq<Row>, parse: DateParser)
    ensures SelectRows(who, q, rows, parse) == Filter(ScopeToRole(who, rows), QueryFilter(q, parse))
  {
    var scoped := ScopeToRole(who, rows);
    var g1 := (row: Row) => Truthy(q.kelas) ==> Cell(row, 2) == q.kelas;
    var g2 := (row: Row) => Truthy(q.startDate) ==> OnOrAfter(row, q.startDate, parse);
    var g3 := (row: Row) => Truthy(q.endDate) ==> OnOrBefore(row, q.endDate, parse);
    var g12 := (row: Row) => g1(row) && g2(row);
    FilterIf(scoped, Truthy(q.kelas), HasClass(q.kelas), g1);
    var d1 := Filter(scoped, g1);
    FilterIf(d1, Truthy(q.startDate), DatedFrom(q.startDate, parse), g2);
    var d2 := Filter(d1, g2);
    FilterIf(d2, Truthy(q.endDate), DatedUntil(q.endDate, parse), g3);
    FilterTwice(scoped, g1, g2, g12);
    FilterTwice(scoped, g12, g3, QueryFilter(q, parse));
  }

  /** A row is listed exactly when the caller may see it and it matches the
      query. */
  lemma ListedRows(who: Identity, q: Query, rows: seq<Row>, parse: DateParser)
    ensures forall row :: row in SelectRows(who, q, rows, parse) <==>
      row in rows && Visible(who, row) && MatchesQuery(q, parse, row)
  {
    SelectRowsIsQueryFilter(who, q, rows, parse);
  }

  /** The listing keeps table order: it is a subsequence of the rows the
      role filter lets through, so the query can only narrow it. */
  lemma QueryOnlyNarrows(who: Identity, q: Query, rows: seq<Row>, parse: DateParser)
    ensures IsSubsequence(SelectRows(who, q, rows, parse), ScopeToRole(who, rows))
    ensures IsSubsequence(ListAttendance(who, q, rows, parse), ListAttendance(who, NoQuery, rows, parse))
  {
    SelectRowsIsQueryFilter(who, q, rows, parse);
    FilterIsSubsequence(ScopeToRole(who, rows), QueryFilter(q, parse));
    MapKeepsSubsequence(SelectRows(who, q, rows, parse), ScopeToRole(who, rows), Format);
  }

  /** siswa, sekertaris and guru_wali_murid see only their own class,
      whatever `kelas` they put in the query. */
  lemma ScopedCallerSeesOwnClass(who: Identity, q: Query, rows: seq<Row>, parse: DateParser)
    requires ClassScoped(who.role)
    ensures forall rec :: rec in ListAttendance(who, q, rows, parse) ==>
      who.kelas.Some? && rec.kelas == who.kelas
  {
    var selected := SelectRows(who, q, rows, parse);
    var listed := ListAttendance(who, q, rows, parse);
    ListedRows(who, q, rows, parse);
    forall rec | rec in listed ensures who.kelas.Some? && rec.kelas == who.kelas {
      var i :| 0 <= i < |listed| && listed[i] == rec;
      assert selected[i] in selected;
    }
  }

  /** A class-scoped caller with no class sees nothing. */
  lemma ClasslessCallerSeesNothing(who: Identity, q: Query, rows: seq<Row>, parse: DateParser)
    requires ClassScoped(who.role) && who.kelas.None?
    ensures ListAttendance(who, q, rows, parse) == []
  {
    FilterNone(rows, OwnClass(who));
  }

  /** guru, and any role outside the three scoped ones, gets every row in
      table order when the query is empty. */
  lemma UnscopedCallerSeesEveryRow(who: Identity, q: Query, rows: seq<Row>, parse: DateParser)
    requires !ClassScoped(who.role)
    requires !Truthy(q.kelas) && !Truthy(q.startDate) && !Truthy(q.endDate)
    ensures |ListAttendance(who, q, rows, parse)| == |rows|
    ensures forall k :: 0 <= k < |rows| ==> ListAttendance(who, q, rows, parse)[k] == Format(rows[k])
  {
  }

  /** Both date bounds are inclusive and compare parsed days, not text: a
      visible row is listed for a date range exactly when its date falls
      between the two bounds or on either of them, however each is spelt. */
  lemma DateBoundsInclusive(who: Identity, rows: seq<Row>, parse: DateParser, row: Row,
                            startDate: string, endDate: string)
    requires row in rows && Visible(who, row)
    requires startDate != "" && endDate != ""
    requires Cell(row, 0).Some? && parse(Cell(row, 0).value).Some?
    requires parse(startDate).Some? && parse(endDate).Some?
    ensures row in SelectRows(who, Query(None, Some(startDate), Some(endDate)), rows, parse) <==>
      parse(startDate).value <= parse(Cell(row, 0).value).value <= parse(endDate).value
  {
    ListedRows(who, Query(None, Some(startDate), Some(endDate)), rows, parse);
  }

  /** The listing is computed row by row: the rows of two stacked parts of
      the tab are listed as the parts are, one after the other. */
  lemma SelectRowsAppend(who: Identity, q: Query, a: seq<Row>, b: seq<Row>, parse: DateParser)
    ensures SelectRows(who, q, a + b, parse) == SelectRows(who, q, a, parse) + SelectRows(who, q, b, parse)
  {
    ScopeToRoleAppend(who, a, b);
    SelectRowsIsQueryFilter(who, q, a + b, parse);
    SelectRowsIsQueryFilter(who, q, a, parse);
    SelectRowsIsQueryFilter(who, q, b, parse);
    FilterAppend(ScopeToRole(who, a), ScopeToRole(who, b), QueryFilter(q, parse));
  }

  lemma SelectOneRow(who: Identity, q: Query, row: Row, parse: DateParser)
    ensures SelectRows(who, q, [row], parse) ==
      if Visible(who, row) && MatchesQuery(q, parse, row) then [row] else []
  {
    ScopeToRoleIsVisibility(who, [row]);
    FilterSingleton(row, VisibleTo(who));
    SelectRowsIsQueryFilter(who, q, [row], parse);
    if Visible(who, row) {
      FilterSingleton(row, QueryFilter(q, parse));
    }
  }

  /** A row added below the others is listed after all earlier records when
      the caller may see it and it matches the query, and the listing is
      otherwise unchanged. */
  lemma ListingAfterAppend(who: Identity, q: Query, rows: seq<Row>, parse: DateParser, row: Row)
    ensures ListAttendance(who, q, rows + [row], parse) ==
      ListAttendance(who, q, rows, parse) +
      (if Visible(who, row) && MatchesQuery(q, parse, row) then [Format(row)] else [])
  {
    SelectRowsAppend(who, q, rows, [row], parse);
    SelectOneRow(who, q, row, parse);
    MapAppend(SelectRows(who, q, rows, parse), SelectRows(who, q, [row], parse), Format);
  }

  // ---------------------------------------------------------------------------
  // POST, PUT, DELETE /absensi

  /** `tanggal && nama && kelas && status`. */
  predicate AttendanceComplete(body: AttendanceBody) {
    Truthy(body.tanggal) && Truthy(body.nama) && Truthy(body.kelas) && Truthy(body.status)
  }

  /** The cells an attendance write sends, `[tanggal, nama, kelas, status,
      keterangan || '']`, with `None` for a property the body lacks. */
  function AttendanceCells(body: AttendanceBody): (cells: seq<Option<string>>)
    ensures |cells| == AttendanceWidth
  {
    [body.tanggal, body.nama, body.kelas, body.status, Some(OrEmpty(body.keterangan))]
  }

  /** The row POST /absensi appends. */
  function AttendanceRow(body: AttendanceBody): (row: Row)
    requires AttendanceComplete(body)
    ensures |row| == AttendanceWidth
  {
    [body.tanggal.value, body.nama.value, body.kelas.value, body.status.value, OrEmpty(body.keterangan)]
  }

  /** What is written is what is read back: the listing shows an appended
      row as the record that was posted, with `keterangan` defaulting to `''`. */
  lemma PostedRecordReadsBack(body: AttendanceBody)
    requires AttendanceComplete(body)
    ensures Format(AttendanceRow(body)) ==
      Record(body.tanggal, body.nama, body.kelas, body.status, OrEmpty(body.keterangan))
  {
  }

  /** The sheet row number in the path, after `parseInt`; `None` is NaN. */
  predicate ValidIndex(index: Option<int>) {
    index.Some? && index.value >= 2
  }

  /** POST /absensi. */
  method PostAbsensi(absensi: Table, who: Identity, body: AttendanceBody) returns (reply: Reply)
    requires absensi.Valid() && absensi.width == AttendanceWidth
    modifies absensi
    ensures absensi.Valid()
    ensures !CheckRole(AttendanceWriters, who.role) ==>
      reply == Forbidden && absensi.rows == old(absensi.rows)
    ensures CheckRole(AttendanceWriters, who.role) && !AttendanceComplete(body) ==>
      reply == Incomplete && absensi.rows == old(absensi.rows)
    ensures CheckRole(AttendanceWriters, who.role) && AttendanceComplete(body) ==>
      reply == Reply(200, "Data absensi berhasil ditambahkan") &&
      absensi.rows == old(absensi.rows) + [AttendanceRow(body)]
  {
    if !CheckRole(AttendanceWriters, who.role) {
      return Forbidden;
    }
    if !AttendanceComplete(body) {
      return Incomplete;
    }
    absensi.Append(AttendanceRow(body));
    reply := Reply(200, "Data absensi berhasil ditambahkan");
  }

  /** PUT /absensi/:index. The body is not checked for presence, and the row
      is not checked against the caller's class. */
  method PutAbsensi(absensi: Table, who: Identity, index: Option<int>, body: AttendanceBody) returns (reply: Reply)
    requires absensi.Valid() && absensi.width == AttendanceWidth
    modifies absensi
    ensures absensi.Valid()
    ensures !CheckRole(AttendanceWriters, who.role) ==>
      reply == Forbidden && absensi.rows == old(absensi.rows)
    ensures CheckRole(AttendanceWriters, who.role) && !ValidIndex(index) ==>
      reply == InvalidIndex && absensi.rows == old(absensi.rows)
    ensures CheckRole(AttendanceWriters, who.role) && ValidIndex(index) ==>
      reply == Reply(200, "Data berhasil diupdate") &&
      absensi.rows == UpdatedRows(old(absensi.rows), index.value, AttendanceCells(body))
  {
    if !CheckRole(AttendanceWriters, who.role) {
      return Forbidden;
    }
    if !ValidIndex(index) {
      return InvalidIndex;
    }
    absensi.UpdateAt(index.value, AttendanceCells(body));
    reply := Reply(200, "Data berhasil diupdate");
  }

  /** A PUT whose body has all four fields replaces the row outright. */
  lemma CompleteUpdateReplacesRow(rows: seq<Row>, position: int, body: AttendanceBody)
    requires position >= 2 && AttendanceComplete(body)
    requires forall k :: 0 <= k < |rows| ==> |rows[k]| <= AttendanceWidth
    ensures UpdatedRows(rows, position, AttendanceCells(body))[position - 2] == AttendanceRow(body)
  {
    MergeAllGiven(RowAt(rows, position - 2), AttendanceCells(body), AttendanceRow(body));
  }

  /** DELETE /absensi/:index. */
  method DeleteAbsensi(absensi: Table, who: Identity, index: Option<int>) returns (reply: Reply)
    requires absensi.Valid() && absensi.width == AttendanceWidth
    modifies absensi
    ensures absensi.Valid()
    ensures !CheckRole(TeachersOnly, who.role) ==>
      reply == Forbidden && absensi.rows == old(absensi.rows)
    ensures CheckRole(TeachersOnly, who.role) && !ValidIndex(index) ==>
      reply == InvalidIndex && absensi.rows == old(absensi.rows)
    ensures CheckRole(TeachersOnly, who.role) && ValidIndex(index) ==>
      reply == Reply(200, "Data berhasil dihapus") &&
      absensi.rows == ClearedRows(old(absensi.rows), index.value)
  {
    if !CheckRole(TeachersOnly, who.role) {
      return Forbidden;
    }
    if !ValidIndex(index) {
      return InvalidIndex;
    }
    absensi.ClearAt(index.value);
    reply := Reply(200, "Data berhasil dihapus");
  }

  /** After a delete, class-scoped callers no longer see the cleared row,
      and what they see of the other rows is what they saw before, in order. */
  lemma ScopedListingAfterDelete(who: Identity, q: Query, rows: seq<Row>, parse: DateParser, position: int)
    requires ClassScoped(who.role) && 2 <= position < |rows| + 2
    ensures ListAttendance(who, q, ClearedRows(rows, position), parse) ==
      ListAttendance(who, q, rows[..position - 2] + rows[position - 1..], parse)
  {
    var k := position - 2;
    var before, after := rows[..k], rows[k + 1..];
    assert ClearedRows(rows, position) == before + ([[]] + after);
    assert rows[position - 1..] == after;
    SelectRowsAppend(who, q, before, [[]] + after, parse);
    SelectRowsAppend(who, q, [[]], after, parse);
    SelectOneRow(who, q, [], parse);
    SelectRowsAppend(who, q, before, after, parse);
  }

  /** For guru, and any caller the role filter does not cut down, a deleted
      row stays in the listing of an empty query, at its place, as a record
      with every field empty. This is a statement about the rows as the model
      keeps them: when the cleared row is the last one, the live sheet reads
      it back as a trailing empty row, which the spreadsheet drops, so there
      the listing is one record shorter. */
  lemma DeletedRowListedEmpty(who: Identity, rows: seq<Row>, parse: DateParser, position: int)
    requires !ClassScoped(who.role) && 2 <= position < |rows| + 2
    ensures |ListAttendance(who, NoQuery, ClearedRows(rows, position), parse)| == |rows|
    ensures ListAttendance(who, NoQuery, ClearedRows(rows, position), parse)[position - 2] ==
      Record(None, None, None, None, "")
  {
    UnscopedCallerSeesEveryRow(who, NoQuery, ClearedRows(rows, position), parse);
  }

  // ---------------------------------------------------------------------------
  // GET and POST /users

  /** A user as GET /users shows it: no password, class defaulting to `''`. */
  datatype UserView = UserView(username: Option<string>, role: Option<string>, kelas: string)

  function ViewOf(row: Row): (view: UserView)
    ensures view.username.Some? <==> |row| > 0
    ensures view.username.Some? ==> view.username.value == row[0]
    ensures view.role.Some? <==> |row| > 2
    ensures view.role.Some? ==> view.role.value == row[2]
    ensures view.kelas == if |row| > 3 then row[3] else ""
  {
    UserView(Cell(row, 0), Cell(row, 2), OrEmpty(Cell(row, 3)))
  }

  /** GET /users: the users in table order, for guru only. */
  function ListUsers(who: Identity, users: seq<Row>): (r: Result<seq<UserView>, Reply>)
    ensures r.Failure? <==> !CheckRole(TeachersOnly, who.role)
    ensures r.Failure? ==> r.error == Forbidden
    ensures r.Success? ==> |r.value| == |users|
    ensures r.Success? ==> forall k :: 0 <= k < |users| ==>
      r.value[k].username == Cell(users[k], 0) && r.value[k].role == Cell(users[k], 2) &&
      (Truthy(Cell(users[k], 3)) ==> r.value[k].kelas == users[k][3]) &&
      (!Truthy(Cell(users[k], 3)) ==> r.value[k].kelas == "")
  {
    if !CheckRole(TeachersOnly, who.role) then Failure(Forbidden)
    else Success(Map(users, ViewOf))
  }

  /** The listing never shows the password column: two Users tabs that
      differ only in passwords list the same. */
  lemma ListUsersOmitsPasswords(who: Identity, users: seq<Row>, others: seq<Row>)
    requires |users| == |others|
    requires forall k :: 0 <= k < |users| ==>
      Cell(users[k], 0) == Cell(others[k], 0) &&
      Cell(users[k], 2) == Cell(others[k], 2) &&
      Cell(users[k], 3) == Cell(others[k], 3)
    ensures ListUsers(who, users) == ListUsers(who, others)
  {
    if CheckRole(TeachersOnly, who.role) {
      assert Map(users, ViewOf) == Map(others, ViewOf);
    }
  }

  /** `username && password && role`. */
  predicate UserComplete(body: UserBody) {
    Truthy(body.username) && Truthy(body.password) && Truthy(body.role)
  }

  /** The row POST /users appends: `[username, password, role, kelas || '']`. */
  function UserRow(body: UserBody): (row: Row)
    requires UserComplete(body)
    ensures |row| == UsersWidth
  {
    [body.username.value, body.password.value, body.role.value, OrEmpty(body.kelas)]
  }

  /** POST /users. No length, role-name or uniqueness check is made. */
  method PostUsers(users: Table, who: Identity, body: UserBody) returns (reply: Reply)
    requires users.Valid() && users.width == UsersWidth
    modifies users
    ensures users.Valid()
    ensures !CheckRole(TeachersOnly, who.role) ==>
      reply == Forbidden && users.rows == old(users.rows)
    ensures CheckRole(TeachersOnly, who.role) && !UserComplete(body) ==>
      reply == Incomplete && users.rows == old(users.rows)
    ensures CheckRole(TeachersOnly, who.role) && UserComplete(body) ==>
      reply == Reply(200, "User berhasil ditambahkan") &&
      users.rows == old(users.rows) + [UserRow(body)]
  {
    if !CheckRole(TeachersOnly, who.role) {
      return Forbidden;
    }
    if !UserComplete(body) {
      return Incomplete;
    }
    users.Append(UserRow(body));
    reply := Reply(200, "User berhasil ditambahkan");
  }

  /** A user that was created can log in with the username and password it
      was created with; when no earlier row has the same pair, the token
      carries the role and class it was created with. */
  lemma CreatedUserCanLogIn(users: seq<Row>, body: UserBody)
    requires UserComplete(body)
    ensures Auth.Login(users + [UserRow(body)], body.username, body.password).Success?
    ensures (forall k :: 0 <= k < |users| ==>
               !Auth.CredentialsMatch(users[k], body.username.value, body.password.value)) ==>
      Auth.Login(users + [UserRow(body)], body.username, body.password) ==
        Success(Identity(body.username.value, body.role, OrNull(body.kelas)))
  {
    var all := users + [UserRow(body)];
    assert Auth.CredentialsMatch(all[|users|], body.username.value, body.password.value);
    if forall k :: 0 <= k < |users| ==> !Auth.CredentialsMatch(users[k], body.username.value, body.password.value) {
      Auth.LoginIdentity(all, body.username.value, body.password.value, |users|);
    }
  }

  // ---------------------------------------------------------------------------
  // GET /kelas

  /** `Absensi!C2:C` flattened: the class cell of every row that has one. */
  function ClassColumn(rows: seq<Row>): (column: seq<string>)
    ensures forall c :: c in column <==> exists k :: 0 <= k < |rows| && Cell(rows[k], 2) == Some(c)
  {
    if rows == [] then []
    else
      var rest := ClassColumn(rows[1..]);
      assert forall k :: 0 <= k < |rows[1..]| ==> rows[1..][k] == rows[k + 1];
      (if |rows[0]| > 2 then [rows[0][2]] else []) + rest
  }

  /** `kelas && kelas.trim()`. */
  predicate IsFilled(kelas: string) {
    kelas != "" && Trim(kelas) != ""
  }

  /** GET /kelas: the distinct classes, blank ones left out, sorted. The
      route takes no role into account. */
  function ClassList(rows: seq<Row>): (classes: seq<string>)
    ensures forall c :: c in classes <==>
      (exists k :: 0 <= k < |rows| && Cell(rows[k], 2) == Some(c)) && !AllWhitespace(c)
    ensures StrictlyAscending(classes)
  {
    var distinct := Distinct(ClassColumn(rows));
    var filled := Filter(distinct, c => IsFilled(c));
    FilterKeepsNoDuplicates(distinct, c => IsFilled(c));
    var sorted := Sort(filled);
    PermutationKeepsNoDuplicates(filled, sorted);
    SortedDistinctAscending(sorted);
    assert forall c :: c in sorted <==> c in filled by {
      forall c ensures c in sorted <==> c in filled {
        assert c in multiset(sorted) <==> c in multiset(filled);
      }
    }
    assert forall c :: IsFilled(c) <==> !AllWhitespace(c) by {
      forall c ensures IsFilled(c) <==> !AllWhitespace(c) {
        TrimEmptyIff(c);
      }
    }
    sorted
  }

  /** The class list depends only on which rows the tab holds: neither
      their order nor a repeated row changes it. */
  lemma ClassListIgnoresRowOrder(rows: seq<Row>, others: seq<Row>)
    requires forall row :: row in rows <==> row in others
    ensures ClassList(rows) == ClassList(others)
  {
    var a, b := ClassList(rows), ClassList(others);
    forall c ensures c in a <==> c in b {
      if exists k :: 0 <= k < |rows| && Cell(rows[k], 2) == Some(c) {
        var k :| 0 <= k < |rows| && Cell(rows[k], 2) == Some(c);
        assert rows[k] in others;
        var j :| 0 <= j < |others| && others[j] == rows[k];
      }
      if exists k :: 0 <= k < |others| && Cell(others[k], 2) == Some(c) {
        var k :| 0 <= k < |others| && Cell(others[k], 2) == Some(c);
        assert others[k] in rows;
        var j :| 0 <= j < |rows| && rows[j] == others[k];
      }
    }
    AscendingUnique(a, b);
  }
}
