// The Kilter Board vendor client: the login response normalisation and the
// paginated sync loop. The vendor is a function from request to an already
// decoded response; HTTP, headers and JSON decoding stay outside the model.

module KilterClient {
  import opened Wrappers
  import opened Seqs
  import opened Strings
  import opened Schemas

  // ---------------------------------------------------------------- login

  /** The `session` member of the login body: a bare token, an object, or anything else. */
  datatype LoginSession =
    | SessionText(text: string)
    | SessionObject(token: Option<string>, userId: Option<int>)
    | SessionOther

  /** The login response: HTTP status, `session` and the top-level `user_id`. */
  datatype LoginResponse = LoginResponse(status: int, session: LoginSession, userId: Option<int>)

  /** What a successful login yields. */
  datatype KilterSession = KilterSession(token: string, userId: int)

  /** The vendor's login endpoint: the response it gives a username and password. */
  type Login = (string, string) -> LoginResponse

  /** `response.ok`. */
  predicate IsOk(status: int) {
    200 <= status <= 299
  }

  /**
   * `authenticate` after the request: 422 means bad credentials, any other
   * non-2xx a failed login; a string session is the token and the user id comes
   * from the body, an object session carries both; an empty token is an error.
   */
  function Authenticate(resp: LoginResponse): (r: Result<KilterSession>)
    ensures resp.status == 422 ==> r == Err(InvalidCredentials)
    ensures resp.status != 422 && !IsOk(resp.status) ==> r == Err(LoginFailed(resp.status))
    ensures r.Ok? ==> IsOk(resp.status) && r.value.token != ""
    ensures r.Ok? && resp.session.SessionText? ==> r.value == KilterSession(resp.session.text, resp.userId.GetOr(0))
    ensures r.Ok? ==> resp.session.SessionText? || resp.session.SessionObject?
    ensures r.Ok? && resp.session.SessionObject? ==>
      resp.session.token == Some(r.value.token) && r.value.userId == resp.session.userId.GetOr(0)
    ensures IsOk(resp.status) && resp.session.SessionOther? ==> r == Err(NoToken)
    ensures IsOk(resp.status) && resp.session.SessionText? ==> (r.Ok? <==> resp.session.text != "")
    ensures IsOk(resp.status) && resp.session.SessionObject? ==>
      (r.Ok? <==> resp.session.token.Some? && resp.session.token.value != "")
    ensures IsOk(resp.status) && r.Err? ==> r == Err(NoToken)
  {
    if resp.status == 422 then Err(InvalidCredentials)
    else if !IsOk(resp.status) then Err(LoginFailed(resp.status))
    else
      var token := match resp.session
        case SessionText(t) => t
        case SessionObject(t, _) => t.GetOr("")
        case SessionOther => "";
      var userId := match resp.session
        case SessionText(_) => resp.userId.GetOr(0)
        case SessionObject(_, u) => u.GetOr(0)
        case SessionOther => 0;
      if token == "" then Err(NoToken) else Ok(KilterSession(token, userId))
  }

  /** A successful login always has a token, whichever shape the session took. */
  lemma AuthenticateShapes(token: string, userId: int, bodyUserId: Option<int>)
    requires token != ""
    ensures Authenticate(LoginResponse(200, SessionText(token), bodyUserId)) == Ok(KilterSession(token, bodyUserId.GetOr(0)))
    ensures Authenticate(LoginResponse(200, SessionObject(Some(token), Some(userId)), bodyUserId)) == Ok(KilterSession(token, userId))
    ensures Authenticate(LoginResponse(200, SessionObject(Some(token), None), Some(userId))) == Ok(KilterSession(token, 0))
    ensures Authenticate(LoginResponse(200, SessionText(""), bodyUserId)) == Err(NoToken)
    ensures Authenticate(LoginResponse(200, SessionObject(None, Some(userId)), bodyUserId)) == Err(NoToken)
  {
  }

  // ---------------------------------------------------------------- sync pages

  /** One climber's ascent as the vendor reports it (the fields the import reads). */
  datatype KilterAscent = KilterAscent(
    climbUuid: string, angle: int, bidCount: int, difficulty: real, comment: string, climbedAt: string)

  /** One climb of the vendor's catalogue (the fields the import reads). */
  datatype KilterClimb = KilterClimb(uuid: string, name: string)

  /** A cursor echo: `last_synchronized_at` for a table; an empty text stands for a missing or empty one. */
  datatype SyncEcho = SyncEcho(tableName: string, lastSynchronizedAt: string)

  /**
   * One sync page as yielded to the caller: `ascents` and `climbs` when they
   * are arrays, and the remaining members. `_complete` is not part of it.
   */
  datatype SyncPage = SyncPage(ascents: Option<seq<KilterAscent>>, climbs: Option<seq<KilterClimb>>, rest: map<string, Json>)

  /** A sync response: status, `_complete` (absent reads as false), the two echo lists and the page. */
  datatype SyncResponse = SyncResponse(
    status: int, complete: bool, userSyncs: seq<SyncEcho>, sharedSyncs: seq<SyncEcho>, page: SyncPage)

  /** The vendor: the n-th request of a run, with its cursors and token, gets a response. */
  type Server = (nat, map<string, string>, Option<string>) -> SyncResponse

  /** A truthy token: present and non-empty. */
  predicate HasToken(token: Option<string>) {
    token.Some? && token.value != ""
  }

  /** The last usable echo for `table` in `echoes`, if any: the value a sequence of updates leaves. */
  function LastEcho(echoes: seq<SyncEcho>, table: string): (r: Option<string>)
    ensures r.Some? ==> r.value != "" && SyncEcho(table, r.value) in echoes
    ensures r.None? <==> forall e | e in echoes :: e.tableName != table || e.lastSynchronizedAt == ""
  {
    if |echoes| == 0 then None
    else
      var e := echoes[|echoes| - 1];
      if e.tableName == table && e.lastSynchronizedAt != "" then Some(e.lastSynchronizedAt)
      else LastEcho(echoes[..|echoes| - 1], table)
  }

  /** One pass of the cursor loop: an echo moves the cursor of a table already in the payload, when it carries a value. */
  function ApplyEchoes(payload: map<string, string>, echoes: seq<SyncEcho>): (r: map<string, string>)
    ensures r.Keys == payload.Keys
  {
    if |echoes| == 0 then payload
    else
      var p := ApplyEchoes(payload, echoes[..|echoes| - 1]);
      var e := echoes[|echoes| - 1];
      if e.tableName in p && e.lastSynchronizedAt != "" then p[e.tableName := e.lastSynchronizedAt] else p
  }

  /** Every cursor ends at its table's last usable echo, or stays where it was; no table is added. */
  lemma {:induction false} ApplyEchoesLast(payload: map<string, string>, echoes: seq<SyncEcho>)
    ensures ApplyEchoes(payload, echoes).Keys == payload.Keys
    ensures forall k | k in payload :: ApplyEchoes(payload, echoes)[k] == LastEcho(echoes, k).GetOr(payload[k])
    decreases |echoes|
  {
    if |echoes| > 0 {
      ApplyEchoesLast(payload, echoes[..|echoes| - 1]);
    }
  }

  /** The cursors after a page: user echoes (only with a token), then shared echoes, which win on conflict. */
  function Advance(payload: map<string, string>, resp: SyncResponse, token: Option<string>): (r: map<string, string>)
    ensures r.Keys == payload.Keys
  {
    var afterUser := if HasToken(token) then ApplyEchoes(payload, resp.userSyncs) else payload;
    ApplyEchoes(afterUser, resp.sharedSyncs)
  }

  /** Where the cursors go: a shared echo beats a user echo, and user echoes count only with a token. */
  lemma AdvanceSpec(payload: map<string, string>, resp: SyncResponse, token: Option<string>, k: string)
    requires k in payload
    ensures LastEcho(resp.sharedSyncs, k).Some? ==> Advance(payload, resp, token)[k] == LastEcho(resp.sharedSyncs, k).value
    ensures LastEcho(resp.sharedSyncs, k).None? && HasToken(token) ==>
      Advance(payload, resp, token)[k] == LastEcho(resp.userSyncs, k).GetOr(payload[k])
    ensures LastEcho(resp.sharedSyncs, k).None? && !HasToken(token) ==> Advance(payload, resp, token)[k] == payload[k]
  {
    ApplyEchoesLast(payload, resp.userSyncs);
    var afterUser := if HasToken(token) then ApplyEchoes(payload, resp.userSyncs) else payload;
    ApplyEchoesLast(afterUser, resp.sharedSyncs);
  }

  /** What a run of the loop did: the cursors of each request, the pages yielded, and the status that aborted it, if any. */
  datatype SyncRun = SyncRun(requests: seq<map<string, string>>, pages: seq<SyncPage>, failure: Option<int>)

  /**
   * `syncPages` from request number `page` on: send the cursors, abort on a
   * non-2xx answer, yield the page, stop when it is the last one, otherwise
   * advance the cursors; never more than `maxPages` requests in all.
   */
  function SyncPages(server: Server, payload: map<string, string>, token: Option<string>, page: nat, maxPages: nat): (r: SyncRun)
    ensures |r.requests| <= if page < maxPages then maxPages - page else 0
    ensures page < maxPages ==> |r.requests| > 0 && r.requests[0] == payload
    ensures r.failure.None? ==> |r.pages| == |r.requests|
    ensures r.failure.Some? ==> |r.pages| + 1 == |r.requests| && !IsOk(r.failure.value)
    ensures r.failure.None? ==> AnswersOk(server, token, page, r)
    decreases maxPages - page
  {
    if page >= maxPages then SyncRun([], [], None)
    else
      var resp := server(page, payload, token);
      if !IsOk(resp.status) then SyncRun([payload], [], Some(resp.status))
      else if resp.complete then SyncRun([payload], [resp.page], None)
      else
        var rest := SyncPages(server, Advance(payload, resp, token), token, page + 1, maxPages);
        SyncRun([payload] + rest.requests, [resp.page] + rest.pages, rest.failure)
  }

  /** Every request of a run asks for the tables it started with; none is added or dropped. */
  lemma {:induction false} SyncPagesKeys(server: Server, payload: map<string, string>, token: Option<string>, page: nat, maxPages: nat)
    ensures forall i | 0 <= i < |SyncPages(server, payload, token, page, maxPages).requests| ::
      SyncPages(server, payload, token, page, maxPages).requests[i].Keys == payload.Keys
    decreases maxPages - page
  {
    if page < maxPages {
      var resp := server(page, payload, token);
      if IsOk(resp.status) && !resp.complete {
        var next := Advance(payload, resp, token);
        SyncPagesKeys(server, next, token, page + 1, maxPages);
        var rest := SyncPages(server, next, token, page + 1, maxPages);
        var r := SyncPages(server, payload, token, page, maxPages);
        assert r.requests == [payload] + rest.requests;
        forall i | 1 <= i < |r.requests|
          ensures r.requests[i].Keys == payload.Keys
        {
          assert r.requests[i] == rest.requests[i - 1];
          assert rest.requests[i - 1].Keys == next.Keys;
        }
      }
    }
  }

  /** Request i of a run that starts at request number `page` got the answer its cursors earned, and passed it on. */
  predicate FollowsServer(server: Server, token: Option<string>, page: nat, r: SyncRun) {
    forall i | 0 <= i < |r.requests| :: StepFollows(server, token, page, r, i)
  }

  /** Request i of the run is answered, and the run continues from that answer as the loop does. */
  predicate StepFollows(server: Server, token: Option<string>, page: nat, r: SyncRun, i: nat)
    requires i < |r.requests|
  {
    var resp := server(page + i, r.requests[i], token);
    && (i + 1 < |r.requests| ==>
          IsOk(resp.status) && !resp.complete && r.requests[i + 1] == Advance(r.requests[i], resp, token))
    && (i < |r.pages| ==> IsOk(resp.status) && r.pages[i] == resp.page)
  }

  /** Every request of a run that starts at request number `page` got a 2xx answer. */
  predicate AnswersOk(server: Server, token: Option<string>, page: nat, r: SyncRun) {
    forall i | 0 <= i < |r.requests| :: IsOk(server(page + i, r.requests[i], token).status)
  }

  /**
   * The run follows the vendor: request i+1 carries the cursors advanced by
   * answer i, every answer before the last was a successful incomplete page,
   * and each yielded page comes from a 2xx answer and is that answer's page.
   */
  lemma {:induction false} SyncPagesFollows(server: Server, payload: map<string, string>, token: Option<string>, page: nat, maxPages: nat)
    ensures FollowsServer(server, token, page, SyncPages(server, payload, token, page, maxPages))
    decreases maxPages - page
  {
    if page < maxPages {
      var resp := server(page, payload, token);
      if IsOk(resp.status) && !resp.complete {
        var next := Advance(payload, resp, token);
        SyncPagesFollows(server, next, token, page + 1, maxPages);
        var r := SyncPages(server, payload, token, page, maxPages);
        var rest := SyncPages(server, next, token, page + 1, maxPages);
        assert r.requests == [payload] + rest.requests;
        assert r.pages == [resp.page] + rest.pages;
        forall i | 0 <= i < |r.requests|
          ensures StepFollows(server, token, page, r, i)
        {
          if i > 0 {
            assert StepFollows(server, token, page + 1, rest, i - 1);
            assert r.requests[i] == rest.requests[i - 1];
            assert i + 1 < |r.requests| ==> r.requests[i + 1] == rest.requests[i];
            assert i < |r.pages| ==> r.pages[i] == rest.pages[i - 1];
          }
        }
      }
    }
  }

  /** The answer to the last request of a non-empty run that starts at request number `page`. */
  function LastAnswer(server: Server, token: Option<string>, page: nat, r: SyncRun): SyncResponse
    requires |r.requests| > 0
  {
    server(page + |r.requests| - 1, r.requests[|r.requests| - 1], token)
  }

  /** A request sent before a non-empty run leaves the run's last answer where it was. */
  lemma LastAnswerCons(server: Server, token: Option<string>, page: nat, payload: map<string, string>, first: SyncPage, rest: SyncRun)
    requires |rest.requests| > 0
    ensures LastAnswer(server, token, page, SyncRun([payload] + rest.requests, [first] + rest.pages, rest.failure))
      == LastAnswer(server, token, page + 1, rest)
  {
    var r := SyncRun([payload] + rest.requests, [first] + rest.pages, rest.failure);
    assert r.requests[|rest.requests|] == rest.requests[|rest.requests| - 1];
  }

  /** A run that neither failed nor hit the page cap stopped on a page the vendor marked complete. */
  lemma {:induction false} SyncPagesEndComplete(server: Server, payload: map<string, string>, token: Option<string>, page: nat, maxPages: nat)
    ensures var r := SyncPages(server, payload, token, page, maxPages);
      |r.requests| > 0 && r.failure.None? && page + |r.requests| < maxPages ==> LastAnswer(server, token, page, r).complete
    decreases maxPages - page
  {
    if page < maxPages {
      var resp := server(page, payload, token);
      if IsOk(resp.status) && !resp.complete {
        var next := Advance(payload, resp, token);
        SyncPagesEndComplete(server, next, token, page + 1, maxPages);
        var rest := SyncPages(server, next, token, page + 1, maxPages);
        if |rest.requests| > 0 {
          LastAnswerCons(server, token, page, payload, resp.page, rest);
        }
      }
    }
  }

  /** A failed run reports the status of its last answer. */
  lemma {:induction false} SyncPagesEndFailure(server: Server, payload: map<string, string>, token: Option<string>, page: nat, maxPages: nat)
    ensures var r := SyncPages(server, payload, token, page, maxPages);
      r.failure.Some? ==> r.failure.value == LastAnswer(server, token, page, r).status
    decreases maxPages - page
  {
    if page < maxPages {
      var resp := server(page, payload, token);
      if IsOk(resp.status) && !resp.complete {
        var next := Advance(payload, resp, token);
        SyncPagesEndFailure(server, next, token, page + 1, maxPages);
        var rest := SyncPages(server, next, token, page + 1, maxPages);
        if rest.failure.Some? {
          LastAnswerCons(server, token, page, payload, resp.page, rest);
        }
      }
    }
  }

  /** A run ends without a failure exactly when every answer it got was 2xx. */
  lemma SyncPagesSucceeds(server: Server, payload: map<string, string>, token: Option<string>, page: nat, maxPages: nat)
    ensures var r := SyncPages(server, payload, token, page, maxPages);
      r.failure.None? <==> AnswersOk(server, token, page, r)
  {
    var r := SyncPages(server, payload, token, page, maxPages);
    if r.failure.Some? {
      SyncPagesEndFailure(server, payload, token, page, maxPages);
      var last := |r.requests| - 1;
      assert !IsOk(server(page + last, r.requests[last], token).status);
    }
  }

  // ---------------------------------------------------------------- fetch

  /** The watermark of a first sync. */
  const BASE_SYNC_DATE: string := "1970-01-01 00:00:00.000000"

  /** The cap on requests per fetch (`maxPages = 10`). */
  const MAX_PAGES: nat := 10

  /** `since` in the vendor's form: the ISO text with its first `T` made a space and its first `Z` dropped. */
  function SinceText(since: Option<string>): (r: string)
    ensures since.None? ==> r == BASE_SYNC_DATE
  {
    match since
    case None => BASE_SYNC_DATE
    case Some(iso) => ReplaceFirst(ReplaceFirst(iso, 'T', " "), 'Z', "")
  }

  /** On an ISO timestamp `<date>T<time>Z` the watermark is `<date> <time>`. */
  lemma SinceTextIso(date: string, time: string)
    requires 'T' !in date && 'Z' !in date && 'Z' !in time
    ensures SinceText(Some(date + "T" + time + "Z")) == date + " " + time
  {
    var iso := date + "T" + time + "Z";
    assert iso == date + ['T'] + (time + "Z");
    ReplaceFirstAt(date, 'T', time + "Z", " ");
    var once := ReplaceFirst(iso, 'T', " ");
    var mid := date + " " + time;
    assert once == mid + ['Z'] + "";
    assert 'Z' !in mid;
    ReplaceFirstAt(mid, 'Z', "", "");
    assert ReplaceFirst(once, 'Z', "") == mid;
  }

  /** Replacing the first `c` where it first occurs. */
  lemma ReplaceFirstAt(pre: string, c: char, post: string, rep: string)
    requires c !in pre
    ensures ReplaceFirst(pre + [c] + post, c, rep) == pre + rep + post
  {
    var s := pre + [c] + post;
    assert s[|pre|] == c;
    assert s[..|pre|] == pre && s[|pre| + 1..] == post;
  }

  /** The payload of a fetch: both tables start at the same watermark. */
  function SeedPayload(since: Option<string>): (r: map<string, string>)
    ensures r.Keys == {"ascents", "climbs"}
    ensures r["ascents"] == r["climbs"] == SinceText(since)
  {
    map["ascents" := SinceText(since), "climbs" := SinceText(since)]
  }

  /** The ascents of the pages in page order; a page whose `ascents` is not an array adds nothing. */
  function AllAscents(pages: seq<SyncPage>): seq<KilterAscent> {
    if |pages| == 0 then [] else pages[0].ascents.GetOr([]) + AllAscents(pages[1..])
  }

  /** The climbs of the pages in page order. */
  function AllClimbs(pages: seq<SyncPage>): seq<KilterClimb> {
    if |pages| == 0 then [] else pages[0].climbs.GetOr([]) + AllClimbs(pages[1..])
  }

  /** Collecting distributes over consecutive runs of pages. */
  lemma {:induction false} AllConcat(a: seq<SyncPage>, b: seq<SyncPage>)
    ensures AllAscents(a + b) == AllAscents(a) + AllAscents(b)
    ensures AllClimbs(a + b) == AllClimbs(a) + AllClimbs(b)
    decreases |a|
  {
    if |a| > 0 {
      AllConcat(a[1..], b);
      assert (a + b)[1..] == a[1..] + b;
    } else {
      assert a + b == b;
    }
  }

  /** The result of a fetch. */
  datatype KilterSyncResult = KilterSyncResult(ascents: seq<KilterAscent>, climbs: seq<KilterClimb>)

  /** `fetchAscentsAndClimbs`: run the loop from the seeded cursors and concatenate; a failed page fails the fetch. */
  function FetchAscentsAndClimbs(server: Server, token: string, since: Option<string>): (r: Result<KilterSyncResult>)
    ensures var run := SyncPages(server, SeedPayload(since), Some(token), 0, MAX_PAGES);
      && (r.Err? <==> run.failure.Some?)
      && (r.Ok? <==> AnswersOk(server, Some(token), 0, run))
      && (r.Err? ==> r.error == SyncFailed(run.failure.value))
      && (r.Ok? ==> r.value == KilterSyncResult(AllAscents(run.pages), AllClimbs(run.pages)))
      && 1 <= |run.requests| <= MAX_PAGES
      && run.requests[0] == SeedPayload(since)
  {
    SyncPagesSucceeds(server, SeedPayload(since), Some(token), 0, MAX_PAGES);
    var run := SyncPages(server, SeedPayload(since), Some(token), 0, MAX_PAGES);
    match run.failure
    case Some(status) => Err(SyncFailed(status))
    case None => Ok(KilterSyncResult(AllAscents(run.pages), AllClimbs(run.pages)))
  }

  /** Every request of a fetch asks for exactly the two tables; no table is ever added. */
  lemma FetchTablesFixed(server: Server, token: string, since: Option<string>)
    ensures var run := SyncPages(server, SeedPayload(since), Some(token), 0, MAX_PAGES);
      forall i | 0 <= i < |run.requests| :: run.requests[i].Keys == {"ascents", "climbs"}
  {
    SyncPagesKeys(server, SeedPayload(since), Some(token), 0, MAX_PAGES);
  }

  // ---------------------------------------------------------------- climb links

  const CLIMB_URL_PREFIX: string := "https://kilterboardapp.com/climbs/"

  /** `buildClimbUrl`. */
  function BuildClimbUrl(climbUuid: string): (r: string)
    ensures |r| == |CLIMB_URL_PREFIX| + |climbUuid| && r[..|CLIMB_URL_PREFIX|] == CLIMB_URL_PREFIX
  {
    CLIMB_URL_PREFIX + climbUuid
  }

  /** The climb a link points at. */
  function ClimbUuidOfUrl(url: string): Option<string> {
    if |url| >= |CLIMB_URL_PREFIX| && url[..|CLIMB_URL_PREFIX|] == CLIMB_URL_PREFIX
    then Some(url[|CLIMB_URL_PREFIX|..]) else None
  }

  /** A climb link leads back to its climb, so distinct climbs get distinct links. */
  lemma BuildClimbUrlRoundTrip(climbUuid: string)
    ensures ClimbUuidOfUrl(BuildClimbUrl(climbUuid)) == Some(climbUuid)
  {
    assert BuildClimbUrl(climbUuid)[|CLIMB_URL_PREFIX|..] == climbUuid;
  }
}
