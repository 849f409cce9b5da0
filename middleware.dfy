/** The Express middleware of the API: the per-IP rate limiter, the request
    validators, the CORS origin check and the mapping of errors to replies. */
module Middleware {
  import opened Common
  import opened JsStrings
  import opened Api
  import Sheet

  // ---------------------------------------------------------------------------
  // Rate limiting

  /** What the limiter remembers of one IP: the requests counted in the
      current window and the time (in ms) that window began. */
  datatype Entry = Entry(count: int, startTime: int)

  const TooManyRequests := Reply(429, "Terlalu banyak permintaan. Coba lagi nanti.")

  /** The defaults of `rateLimit()`. */
  const DefaultWindowMs := 60000
  const DefaultMaxRequests := 100

  /** The decision on one request and the limiter's state after it. */
  datatype Outcome = Outcome(allowed: bool, entries: map<string, Entry>)

  /** The limiter's decision on a request from `ip` at time `now`. A new IP,
      or one whose window has run out, starts a fresh window with this
      request counted; within the window a request is let through while
      fewer than `maxRequests` have been counted, and a refused request
      changes nothing. */
  function Admit(entries: map<string, Entry>, ip: string, now: int, windowMs: int, maxRequests: int): (o: Outcome)
    ensures o.entries.Keys == entries.Keys + {ip}
    ensures forall other :: other in entries && other != ip ==> o.entries[other] == entries[other]
    ensures ip !in entries ==> o.allowed && o.entries[ip] == Entry(1, now)
    ensures ip in entries && now - entries[ip].startTime > windowMs ==>
      o.allowed && o.entries[ip] == Entry(1, now)
    ensures ip in entries && now - entries[ip].startTime <= windowMs ==>
      (o.allowed <==> entries[ip].count < maxRequests) &&
      o.entries[ip] == (if o.allowed then entries[ip].(count := entries[ip].count + 1) else entries[ip])
  {
    if ip !in entries then Outcome(true, entries[ip := Entry(1, now)])
    else
      var data := entries[ip];
      if now - data.startTime > windowMs then Outcome(true, entries[ip := Entry(1, now)])
      else if data.count >= maxRequests then Outcome(false, entries)
      else Outcome(true, entries[ip := data.(count := data.count + 1)])
  }

  /** The entries the limiter holds between requests. */
  class RateLimiter {
    var entries: map<string, Entry>

    constructor ()
      ensures entries == map[]
    {
      entries := map[];
    }

    /** `rateLimit(windowMs, maxRequests)` applied to one request: `None` lets
        the request through to the route, `Some` is the reply it gets
        instead. The IP, the clock reading and the limits are parameters. */
    method Request(ip: string, now: int, windowMs: int, maxRequests: int) returns (refusal: Option<Reply>)
      modifies this
      ensures entries == Admit(old(entries), ip, now, windowMs, maxRequests).entries
      ensures refusal.None? <==> Admit(old(entries), ip, now, windowMs, maxRequests).allowed
      ensures refusal.Some? ==> refusal.value == TooManyRequests
    {
      if ip !in entries {
        entries := entries[ip := Entry(1, now)];
        return None;
      }
      var data := entries[ip];
      if now - data.startTime > windowMs {
        entries := entries[ip := Entry(1, now)];
        return None;
      }
      if data.count >= maxRequests {
        return Some(TooManyRequests);
      }
      entries := entries[ip := data.(count := data.count + 1)];
      refusal := None;
    }

    /** The timer set when an IP is first seen, firing `windowMs` later: the
        IP is forgotten, whatever window it is in by then. */
    method Expire(ip: string)
      modifies this
      ensures entries == old(entries) - {ip}
    {
      entries := entries - {ip};
    }
  }

  /** A run of requests from one IP at the given times, with no other IP's
      requests and no timer in between: how many were let through, and the
      entries afterwards. */
  function Run(entries: map<string, Entry>, ip: string, times: seq<int>, windowMs: int, maxRequests: int): (r: (nat, map<string, Entry>))
    ensures r.0 <= |times|
    decreases |times|
  {
    if times == [] then (0, entries)
    else
      var o := Admit(entries, ip, times[0], windowMs, maxRequests);
      var rest := Run(o.entries, ip, times[1..], windowMs, maxRequests);
      (rest.0 + (if o.allowed then 1 else 0), rest.1)
  }

  /** Within a window that has already counted `count` requests, at most
      `maxRequests - count` more get through, and the count never passes
      `maxRequests`. */
  lemma {:induction false} RunWithinWindow(entries: map<string, Entry>, ip: string, times: seq<int>,
                                           windowMs: int, maxRequests: int)
    requires ip in entries && entries[ip].count <= maxRequests
    requires forall k :: 0 <= k < |times| ==> times[k] - entries[ip].startTime <= windowMs
    ensures Run(entries, ip, times, windowMs, maxRequests).0 <= maxRequests - entries[ip].count
    ensures ip in Run(entries, ip, times, windowMs, maxRequests).1
    ensures Run(entries, ip, times, windowMs, maxRequests).1[ip].count <= maxRequests
    ensures Run(entries, ip, times, windowMs, maxRequests).1[ip].startTime == entries[ip].startTime
    decreases |times|
  {
    if times != [] {
      var o := Admit(entries, ip, times[0], windowMs, maxRequests);
      assert forall k :: 0 <= k < |times[1..]| ==> times[1..][k] == times[k + 1];
      RunWithinWindow(o.entries, ip, times[1..], windowMs, maxRequests);
    }
  }

  /** An IP the limiter has not seen gets at most `maxRequests` requests
      through (at least the first one, when `maxRequests` is below 1) in the
      window its first request opens. */
  lemma AtMostMaxPerWindow(entries: map<string, Entry>, ip: string, first: int, times: seq<int>,
                           windowMs: int, maxRequests: int)
    requires ip !in entries
    requires forall k :: 0 <= k < |times| ==> times[k] - first <= windowMs
    ensures Run(entries, ip, [first] + times, windowMs, maxRequests).0 <=
      if maxRequests < 1 then 1 else maxRequests
  {
    var o := Admit(entries, ip, first, windowMs, maxRequests);
    assert ([first] + times)[1..] == times;
    if 1 <= maxRequests {
      RunWithinWindow(o.entries, ip, times, windowMs, maxRequests);
    } else {
      RunRefusedWhenFull(o.entries, ip, times, windowMs, maxRequests);
    }
  }

  /** With the defaults of `rateLimit()`, a new IP gets at most 100 requests
      through in the minute its first request opens. */
  lemma DefaultLimit(entries: map<string, Entry>, ip: string, first: int, times: seq<int>)
    requires ip !in entries
    requires forall k :: 0 <= k < |times| ==> times[k] - first <= DefaultWindowMs
    ensures Run(entries, ip, [first] + times, DefaultWindowMs, DefaultMaxRequests).0 <= 100
  {
    AtMostMaxPerWindow(entries, ip, first, times, DefaultWindowMs, DefaultMaxRequests);
  }

  /** Once a window is full, every request within it is refused. */
  lemma {:induction false} RunRefusedWhenFull(entries: map<string, Entry>, ip: string, times: seq<int>,
                                              windowMs: int, maxRequests: int)
    requires ip in entries && entries[ip].count >= maxRequests
    requires forall k :: 0 <= k < |times| ==> times[k] - entries[ip].startTime <= windowMs
    ensures Run(entries, ip, times, windowMs, maxRequests) == (0, entries)
    decreases |times|
  {
    if times != [] {
      assert forall k :: 0 <= k < |times[1..]| ==> times[1..][k] == times[k + 1];
      RunRefusedWhenFull(entries, ip, times[1..], windowMs, maxRequests);
    }
  }

  /** Every limit is lifted once the window has run out: the first request
      after it is let through and opens a new window. */
  lemma WindowResets(entries: map<string, Entry>, ip: string, now: int, windowMs: int, maxRequests: int)
    requires ip in entries && now - entries[ip].startTime > windowMs
    ensures Admit(entries, ip, now, windowMs, maxRequests) == Outcome(true, entries[ip := Entry(1, now)])
  {
  }

  // ---------------------------------------------------------------------------
  // Validation

  /** One position of a regular expression: `\d` (an ASCII digit, as
      JavaScript defines it) or a literal character. */
  datatype Atom = Digit | Literal(c: char)

  predicate IsDigit(c: char) {
    '0' <= c <= '9'
  }

  predicate AtomMatches(a: Atom, c: char) {
    match a
    case Digit => IsDigit(c)
    case Literal(l) => c == l
  }

  /** `^...$`: the text is exactly as long as the pattern and each character
      matches the atom at its position. */
  predicate FullMatch(pattern: seq<Atom>, s: string) {
    if pattern == [] then s == []
    else s != [] && AtomMatches(pattern[0], s[0]) && FullMatch(pattern[1..], s[1..])
  }

  /** `atom{n}`. */
  function Repeat(a: Atom, n: nat): (r: seq<Atom>)
    ensures |r| == n && forall i :: 0 <= i < n ==> r[i] == a
  {
    if n == 0 then [] else [a] + Repeat(a, n - 1)
  }

  /** `/^\d{4}-\d{2}-\d{2}$/`. */
  function DatePattern(): seq<Atom> {
    Repeat(Digit, 4) + [Literal('-')] + Repeat(Digit, 2) + [Literal('-')] + Repeat(Digit, 2)
  }

  /** `YYYY-MM-DD` by position: ten characters, dashes at 4 and 7, digits
      everywhere else. Nothing is said about the month or day being real. */
  predicate IsDateShape(s: string) {
    |s| == 10 && forall i :: 0 <= i < 10 ==> if i == 4 || i == 7 then s[i] == '-' else IsDigit(s[i])
  }

  lemma {:induction false} FullMatchByPosition(pattern: seq<Atom>, s: string)
    ensures FullMatch(pattern, s) <==>
      |s| == |pattern| && forall i :: 0 <= i < |s| ==> AtomMatches(pattern[i], s[i])
  {
    if pattern != [] && s != [] {
      FullMatchByPosition(pattern[1..], s[1..]);
      assert forall i :: 0 < i < |s| ==> s[1..][i - 1] == s[i];
      assert forall i :: 0 < i < |pattern| ==> pattern[1..][i - 1] == pattern[i];
    }
  }

  /** The date regular expression accepts exactly the `YYYY-MM-DD` shapes. */
  lemma DatePatternIsDateShape(s: string)
    ensures FullMatch(DatePattern(), s) <==> IsDateShape(s)
  {
    var p := DatePattern();
    FullMatchByPosition(p, s);
    assert |p| == 10;
    assert forall i :: 0 <= i < 10 ==> p[i] == if i == 4 || i == 7 then Literal('-') else Digit;
  }

  const ValidStatuses := ["Hadir", "Sakit", "Izin", "Alpha"]
  const ValidRoles := [Guru, Siswa, Sekertaris, GuruWaliMurid]

  const BadDate := Reply(400, "Format tanggal tidak valid. Gunakan format YYYY-MM-DD")
  const BadStatus := Reply(400, "Status tidak valid")
  const BadUsername := Reply(400, "Username harus antara 3-50 karakter")
  const ShortPassword := Reply(400, "Password minimal 6 karakter")
  const BadRole := Reply(400, "Role tidak valid")

  /** `validateAttendance`: `None` passes the request on; the checks run in
      order and the first that fails gives the reply. */
  function ValidateAttendance(body: AttendanceBody): (refusal: Option<Reply>)
    ensures refusal.None? <==>
      && Truthy(body.tanggal) && Truthy(body.nama) && Truthy(body.kelas) && Truthy(body.status)
      && IsDateShape(body.tanggal.value) && body.status.value in ValidStatuses
    ensures !(Truthy(body.tanggal) && Truthy(body.nama) && Truthy(body.kelas) && Truthy(body.status)) ==>
      refusal == Some(Incomplete)
    ensures Truthy(body.tanggal) && Truthy(body.nama) && Truthy(body.kelas) && Truthy(body.status) ==>
      && (!IsDateShape(body.tanggal.value) ==> refusal == Some(BadDate))
      && (IsDateShape(body.tanggal.value) && body.status.value !in ValidStatuses ==> refusal == Some(BadStatus))
  {
    if !Truthy(body.tanggal) || !Truthy(body.nama) || !Truthy(body.kelas) || !Truthy(body.status) then
      Some(Incomplete)
    else if !FullMatch(DatePattern(), body.tanggal.value) then
      DatePatternIsDateShape(body.tanggal.value);
      Some(BadDate)
    else if body.status.value !in ValidStatuses then
      DatePatternIsDateShape(body.tanggal.value);
      Some(BadStatus)
    else
      DatePatternIsDateShape(body.tanggal.value);
      None
  }

  /** `validateUser`. The length is counted in characters and `kelas` is
      not looked at. */
  function ValidateUser(body: UserBody): (refusal: Option<Reply>)
    ensures refusal.None? <==>
      && Truthy(body.username) && Truthy(body.password) && Truthy(body.role)
      && 3 <= |body.username.value| <= 50 && |body.password.value| >= 6
      && body.role.value in ValidRoles
    ensures !(Truthy(body.username) && Truthy(body.password) && Truthy(body.role)) ==>
      refusal == Some(Incomplete)
    ensures Truthy(body.username) && Truthy(body.password) && Truthy(body.role) ==>
      && (!(3 <= |body.username.value| <= 50) ==> refusal == Some(BadUsername))
      && (3 <= |body.username.value| <= 50 && |body.password.value| < 6 ==> refusal == Some(ShortPassword))
      && (3 <= |body.username.value| <= 50 && |body.password.value| >= 6 && body.role.value !in ValidRoles ==>
            refusal == Some(BadRole))
  {
    if !Truthy(body.username) || !Truthy(body.password) || !Truthy(body.role) then Some(Incomplete)
    else if |body.username.value| < 3 || |body.username.value| > 50 then Some(BadUsername)
    else if |body.password.value| < 6 then Some(ShortPassword)
    else if body.role.value !in ValidRoles then Some(BadRole)
    else None
  }

  /** The validators are stricter than the routes' own presence checks: a
      body they pass would also pass the route's check, and a body the
      route's check refuses they refuse with the same reply. */
  lemma ValidatorsRefineRouteChecks(attendance: AttendanceBody, user: UserBody)
    ensures ValidateAttendance(attendance).None? ==> Sheet.AttendanceComplete(attendance)
    ensures !Sheet.AttendanceComplete(attendance) ==> ValidateAttendance(attendance) == Some(Incomplete)
    ensures ValidateUser(user).None? ==> Sheet.UserComplete(user)
    ensures !Sheet.UserComplete(user) ==> ValidateUser(user) == Some(Incomplete)
  {
  }

  /** Concrete cases of the date check. */
  lemma DateShapeExamples()
    ensures ValidateAttendance(AttendanceBody(Some("2024-01-15"), Some("Budi"), Some("X-A"), Some("Hadir"), None)) == None
    ensures ValidateAttendance(AttendanceBody(Some("2024-1-15"), Some("Budi"), Some("X-A"), Some("Hadir"), None)) == Some(BadDate)
    ensures ValidateAttendance(AttendanceBody(Some("2024-13-99"), Some("Budi"), Some("X-A"), Some("Hadir"), None)) == None
  {
    assert IsDateShape("2024-01-15");
    assert !IsDateShape("2024-1-15");
    assert IsDateShape("2024-13-99");
  }

  // ---------------------------------------------------------------------------
  // CORS

  const AllowedOrigins := ["http://localhost:3000", "https://absensi-bk.vercel.app"]

  /** The `origin` callback of the CORS options: a request without an
      origin, one from the allow list, or one whose origin merely contains
      `vercel.app` is allowed; any other is refused. */
  function OriginAllowed(origin: Option<string>): (allowed: bool)
    ensures !Truthy(origin) ==> allowed
    ensures Truthy(origin) ==> (allowed <==> origin.value in AllowedOrigins || Occurs(origin.value, "vercel.app"))
  {
    !Truthy(origin) || origin.value in AllowedOrigins || Includes(origin.value, "vercel.app")
  }

  /** The substring test lets through every origin that has `vercel.app`
      anywhere in it, including hosts that only mention it. */
  lemma {:induction false} AnyVercelMentionAllowed(prefix: string, suffix: string)
    ensures OriginAllowed(Some(prefix + "vercel.app" + suffix))
  {
    var o := prefix + "vercel.app" + suffix;
    assert o[|prefix|..|prefix| + 10] == "vercel.app";
    assert OccursAt(o, "vercel.app", |prefix|);
  }

  /** The list entry for the deployed frontend adds nothing the substring
      test does not already allow; `http://localhost:3000` is the one origin
      only the list admits. */
  lemma AllowListAndSubstring()
    ensures Occurs("https://absensi-bk.vercel.app", "vercel.app")
    ensures OriginAllowed(Some("http://localhost:3000"))
    ensures !OriginAllowed(Some("http://localhost:3001"))
  {
    assert OccursAt("https://absensi-bk.vercel.app", "vercel.app", 19);
    var other := "http://localhost:3001";
    assert 'v' !in other;
    forall i ensures !OccursAt(other, "vercel.app", i) {
      if 0 <= i <= |other| - 10 {
        assert other[i..i + 10][0] == other[i];
      }
    }
  }

  // ---------------------------------------------------------------------------
  // Errors

  /** `errorHandler`, by the `name` of the error. */
  function ErrorReply(name: string): (reply: Reply)
    ensures reply.status == 401 <==> name == "JsonWebTokenError" || name == "TokenExpiredError"
    ensures reply.status != 401 ==> reply == Reply(500, "Terjadi kesalahan internal server")
    ensures name == "JsonWebTokenError" ==> reply.text == "Token tidak valid"
    ensures name == "TokenExpiredError" ==> reply.text == "Token telah kadaluarsa"
  {
    if name == "JsonWebTokenError" then Reply(401, "Token tidak valid")
    else if name == "TokenExpiredError" then Reply(401, "Token telah kadaluarsa")
    else Reply(500, "Terjadi kesalahan internal server")
  }
}
