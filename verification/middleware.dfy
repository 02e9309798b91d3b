/**
  The in-memory fixed-window rate limiter in front of `/api` routes.  The
  per-identity table is an explicit value: `Check` takes it with the current
  time and returns the verdict together with the updated table.
 */
module RateLimit {
  import opened Common

  /** One minute, in milliseconds. */
  const WindowMs: int := 60 * 1000
  const MaxRequests: int := 100

  const TooManyRequestsStatus: int := 429
  const TooManyRequestsMessage: string := "Too many requests"
  const UnknownClient: string := "unknown"

  /** Requests seen from one identity since `timestamp`, the window start. */
  datatype Entry = Entry(count: int, timestamp: int)

  type Table = map<string, Entry>

  datatype Verdict = Verdict(allowed: bool, table: Table)

  /**
    `rateLimit.check(ip)` at time `now`.  A new identity, or one whose window
    started more than `WindowMs` ago, gets a fresh window and is admitted.
    Otherwise the count is incremented and the request is admitted iff the
    count BEFORE the increment was at most `MaxRequests`.  Only the entry for
    `ip` changes.
   */
  function Check(table: Table, ip: string, now: int): (v: Verdict)
    ensures v.table.Keys == table.Keys + {ip}
    ensures forall k :: k in table && k != ip ==> v.table[k] == table[k]
    ensures ip !in table ==> v.allowed && v.table[ip] == Entry(1, now)
    ensures ip in table && now - table[ip].timestamp > WindowMs ==>
      v.allowed && v.table[ip] == Entry(1, now)
    ensures ip in table && now - table[ip].timestamp <= WindowMs ==>
      && v.table[ip] == Entry(table[ip].count + 1, table[ip].timestamp)
      && (v.allowed <==> table[ip].count <= MaxRequests)
  {
    if ip !in table then
      Verdict(true, table[ip := Entry(1, now)])
    else
      var e := table[ip];
      if now - e.timestamp > WindowMs then
        Verdict(true, table[ip := Entry(1, now)])
      else
        Verdict(e.count <= MaxRequests, table[ip := e.(count := e.count + 1)])
  }

  /** Every entry has recorded at least one request. */
  predicate WellFormed(table: Table) {
    forall k :: k in table ==> table[k].count >= 1
  }

  lemma CheckPreservesWellFormed(table: Table, ip: string, now: int)
    requires WellFormed(table)
    ensures WellFormed(Check(table, ip, now).table)
  {
  }

  /** The verdicts for a run of requests from `ip` at the given times, and the final table. */
  function Replay(table: Table, ip: string, times: seq<int>): (seq<bool>, Table)
    decreases |times|
  {
    if |times| == 0 then ([], table)
    else
      var v := Check(table, ip, times[0]);
      var rest := Replay(v.table, ip, times[1..]);
      ([v.allowed] + rest.0, rest.1)
  }

  /**
    Inside one window, starting from `count` earlier requests, the `i`-th
    further request is admitted iff `count + i <= MaxRequests`, and the window
    start never moves.
   */
  lemma {:induction false} ReplayInWindow(table: Table, ip: string, times: seq<int>)
    requires ip in table
    requires forall i :: 0 <= i < |times| ==> times[i] - table[ip].timestamp <= WindowMs
    ensures |Replay(table, ip, times).0| == |times|
    ensures forall i :: 0 <= i < |times| ==>
      Replay(table, ip, times).0[i] == (table[ip].count + i <= MaxRequests)
    ensures ip in Replay(table, ip, times).1
    ensures Replay(table, ip, times).1[ip] == Entry(table[ip].count + |times|, table[ip].timestamp)
    decreases |times|
  {
    if |times| > 0 {
      var next := Check(table, ip, times[0]).table;
      ReplayInWindow(next, ip, times[1..]);
    }
  }

  /**
    A fresh identity sending requests within one window: requests 1 to 101
    (indices 0 to 100) are admitted and every later one is rejected, because
    the cap is compared with the count before it is incremented.
   */
  lemma FirstWindow(table: Table, ip: string, times: seq<int>)
    requires ip !in table
    requires |times| >= 1
    requires forall i :: 0 <= i < |times| ==> times[i] - times[0] <= WindowMs
    ensures |Replay(table, ip, times).0| == |times|
    ensures forall i :: 0 <= i < |times| ==> Replay(table, ip, times).0[i] == (i <= MaxRequests)
  {
    var next := Check(table, ip, times[0]).table;
    ReplayInWindow(next, ip, times[1..]);
  }

  /** Once a request is rejected, every later request in the same window is rejected too. */
  lemma RejectionPersists(table: Table, ip: string, now: int, later: int)
    requires !Check(table, ip, now).allowed
    requires ip in table && later - table[ip].timestamp <= WindowMs
    ensures !Check(Check(table, ip, now).table, ip, later).allowed
  {
  }

  /** The incoming request, as far as the middleware reads it. */
  datatype Request = Request(pathname: string, forwardedFor: Option<string>)

  /** `NextResponse.next()`, or the 429 response with its JSON `{error}` body. */
  datatype Reply = PassThrough | Rejected(status: int, error: string)

  datatype Gate = Gate(reply: Reply, table: Table)

  predicate StartsWith(s: string, prefix: string) {
    |prefix| <= |s| && s[..|prefix|] == prefix
  }

  /** `x-forwarded-for`, or the shared "unknown" identity when it is absent or empty. */
  function ClientId(req: Request): (id: string)
    ensures Truthy(req.forwardedFor) ==> id == req.forwardedFor.value
    ensures !Truthy(req.forwardedFor) ==> id == UnknownClient
  {
    if Truthy(req.forwardedFor) then req.forwardedFor.value else UnknownClient
  }

  /** The middleware: only paths under `/api` are counted and may be refused. */
  function Middleware(table: Table, req: Request, now: int): (g: Gate)
    ensures !StartsWith(req.pathname, "/api") ==> g == Gate(PassThrough, table)
    ensures StartsWith(req.pathname, "/api") ==>
      var v := Check(table, ClientId(req), now);
      && g.table == v.table
      && (g.reply == PassThrough <==> v.allowed)
      && (g.reply != PassThrough ==> g.reply == Rejected(TooManyRequestsStatus, TooManyRequestsMessage))
  {
    if !StartsWith(req.pathname, "/api") then Gate(PassThrough, table)
    else
      var v := Check(table, ClientId(req), now);
      if v.allowed then Gate(PassThrough, v.table)
      else Gate(Rejected(TooManyRequestsStatus, TooManyRequestsMessage), v.table)
  }

  /**
    An identity already over the cap inside its window is refused on every
    `/api` path, and still reaches every other path.
   */
  lemma OverCapOnlyApiRefused(table: Table, req: Request, now: int)
    requires ClientId(req) in table
    requires table[ClientId(req)].count > MaxRequests
    requires now - table[ClientId(req)].timestamp <= WindowMs
    ensures Middleware(table, req, now).reply
         == if StartsWith(req.pathname, "/api") then Rejected(429, "Too many requests") else PassThrough
  {
  }

  /** Requests without a usable `x-forwarded-for` header all count against one shared entry. */
  lemma AnonymousRequestsShareEntry(table: Table, r1: Request, r2: Request, now1: int, now2: int)
    requires !Truthy(r1.forwardedFor) && !Truthy(r2.forwardedFor)
    requires StartsWith(r1.pathname, "/api") && StartsWith(r2.pathname, "/api")
    requires UnknownClient in table && now2 - table[UnknownClient].timestamp <= WindowMs
    requires now1 - table[UnknownClient].timestamp <= WindowMs
    ensures var t := Middleware(Middleware(table, r1, now1).table, r2, now2).table;
      UnknownClient in t && t[UnknownClient].count == table[UnknownClient].count + 2
  {
  }
}
