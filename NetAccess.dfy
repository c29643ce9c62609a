/** The login and approval flows of auto-netaccess.c and the sequencing of
    its main. Every HTTP exchange is an input Transfer; the flows run it
    through the response buffer, decide from what they observe, and report
    the requests they issue. */
module NetAccess {
  import opened Text
  import opened Response
  import opened HiddenField
  import opened Session

  const BASE_URL: string := "https://netaccess.iitm.ac.in"
  const LOGIN_URL: string := BASE_URL + "/login"
  const APPROVE_URL: string := BASE_URL + "/approve"

  /** A request the tool issues: a GET, or a POST with its form body. */
  datatype Request = Get(url: string) | Post(url: string, fields: string)

  /** The exchange completed with CURLE_OK and HTTP 200. */
  predicate Ok200(r: Reply) {
    r.curlOk && r.status == 200
  }

  /** `strstr(html, marker)` is not NULL. */
  predicate Found(html: string, marker: string) {
    StrStr(html, marker).Some?
  }

  // ----- PerformLogin -----

  predicate HasLoginMarker(html: string) {
    Found(html, "Dashboard") || Found(html, "Approve a Device") || Found(html, "User Profile")
  }

  /** The verdict of PerformLogin on the login-page GET and the login POST. */
  predicate LoginSucceeds(get: Reply, post: Reply) {
    Ok200(get) && Ok200(post) && post.body.Some? && HasLoginMarker(CStr(post.body.value))
  }

  /** The login form body, as it lands in `postData[512]`. */
  function LoginPostData(username: string, password: string): (r: string)
    ensures |r| < 512 && r <= "username=" + username + "&password=" + password
    ensures |r| == if 19 + |username| + |password| < 512 then 19 + |username| + |password| else 511
  {
    Truncate("username=" + username + "&password=" + password, 512)
  }

  /** GET /login, then the POST only when the GET gave CURLE_OK and 200. */
  function LoginRequests(username: string, password: string, get: Reply): seq<Request> {
    [Get(LOGIN_URL)] + if Ok200(get) then [Post(LOGIN_URL, LoginPostData(username, password))] else []
  }

  method PerformLogin(session: SessionData, username: string, password: string, getT: Transfer, postT: Transfer)
    returns (r: int, sent: seq<Request>)
    requires session.Ready()
    ensures r == (if LoginSucceeds(Observe(getT), Observe(postT)) then 1 else 0)
    ensures sent == LoginRequests(username, password, Observe(getT))
  {
    var response := new ResponseData();
    sent := [Get(LOGIN_URL)];
    var reply := Perform(response, getT);
    if !reply.curlOk {
      response.Free();
      return 0, sent;
    }
    if reply.status != 200 {
      response.Free();
      return 0, sent;
    }
    response.Free();

    var postData := LoginPostData(username, password);
    sent := sent + [Post(LOGIN_URL, postData)];
    reply := Perform(response, postT);
    if !reply.curlOk {
      response.Free();
      return 0, sent;
    }
    if reply.status != 200 {
      response.Free();
      return 0, sent;
    }
    var body := response.Body();
    var loginSuccess := body.Some? && HasLoginMarker(CStr(body.value));
    response.Free();
    r := if loginSuccess then 1 else 0;
  }

  /** Login succeeds exactly when both exchanges end in CURLE_OK and 200 and
      the POST body, read as a C string, holds one of the three markers,
      with case significant. */
  lemma LoginSucceedsIff(get: Reply, post: Reply)
    ensures LoginSucceeds(get, post) <==>
      get.curlOk && get.status == 200 && post.curlOk && post.status == 200 && post.body.Some? &&
      (Contains(CStr(post.body.value), "Dashboard") ||
       Contains(CStr(post.body.value), "Approve a Device") ||
       Contains(CStr(post.body.value), "User Profile"))
  {

  }

  /** A 200 answer whose body lacks every marker is a failed login. */
  lemma LoginRejectsUnmarkedBody(get: Reply, post: Reply)
    requires post.body.Some?
    requires !Contains(post.body.value, "Dashboard")
    requires !Contains(post.body.value, "Approve a Device")
    requires !Contains(post.body.value, "User Profile")
    ensures !LoginSucceeds(get, post)
  {
    var body := post.body.value;
    CStrContains(body, "Dashboard");
    CStrContains(body, "Approve a Device");
    CStrContains(body, "User Profile");
    LoginSucceedsIff(get, post);
  }

  /** The markers are matched with case significant: a lower-case
      "dashboard" page is not a login. */
  lemma LoginMarkerCaseSensitive(get: Reply)
    ensures !LoginSucceeds(get, Reply(true, 200, Some("dashboard")))
  {

  }

  /** Short credentials go into the body verbatim. */
  lemma LoginPostDataExact(username: string, password: string)
    requires |username| + |password| <= 492
    ensures LoginPostData(username, password) == "username=" + username + "&password=" + password
  {
  }

  /** The credentials are not form-encoded, so different credentials can
      produce the same body. */
  lemma LoginPostDataNotEncoded()
    ensures LoginPostData("a&password=b", "c") == LoginPostData("a", "b&password=c")
  {

  }

  // ----- ApproveMachine -----

  /** The approval form body, as it lands in `postData[256]`: the duration
      and the three hidden fields when all three were extracted, otherwise
      the duration alone. */
  function ApprovePostData(duration: int, ip: Option<string>, username: Option<string>, building: Option<string>): (r: string)
    ensures |r| < 256 && |r| >= 9 && r[..9] == "duration="
  {
    if ip.Some? && username.Some? && building.Some? then
      Truncate("duration=" + Decimal(duration) + "&ip=" + ip.value + "&username=" + username.value +
               "&building=" + building.value, 256)
    else
      Truncate("duration=" + Decimal(duration), 256)
  }

  /** The approval POST body built from the approve page's HTML. */
  function ApproveFields(duration: int, html: string): string {
    ApprovePostData(duration, ExtractValue(html, "ip"), ExtractValue(html, "username"), ExtractValue(html, "building"))
  }

  predicate HasApprovalMarker(html: string) {
    Found(html, "success") || Found(html, "approved") || Found(html, "authorized")
  }

  /** The verdict of ApproveMachine on the approve-page GET and the POST. */
  predicate ApprovalSucceeds(get: Reply, post: Reply) {
    Ok200(get) && post.curlOk && (post.status == 200 || post.status == 302) &&
    post.body.Some? && (HasApprovalMarker(CStr(post.body.value)) || post.status == 302)
  }

  /** ExtractValue is never handed a NULL page: a GET that succeeded
      delivered a body. */
  predicate PageHasBody(get: Reply) {
    Ok200(get) ==> get.body.Some?
  }

  /** GET /approve, then the POST only when the GET gave CURLE_OK and 200. */
  function ApproveRequests(duration: int, get: Reply): seq<Request>
    requires PageHasBody(get)
  {
    [Get(APPROVE_URL)] + if Ok200(get) then [Post(APPROVE_URL, ApproveFields(duration, CStr(get.body.value)))] else []
  }

  method ApproveMachine(session: SessionData, duration: int, getT: Transfer, postT: Transfer)
    returns (r: int, sent: seq<Request>)
    requires session.Ready() && PageHasBody(Observe(getT))
    ensures r == (if ApprovalSucceeds(Observe(getT), Observe(postT)) then 1 else 0)
    ensures sent == ApproveRequests(duration, Observe(getT))
  {
    var response := new ResponseData();
    sent := [Get(APPROVE_URL)];
    var reply := Perform(response, getT);
    if !reply.curlOk {
      response.Free();
      return 0, sent;
    }
    if reply.status != 200 {
      response.Free();
      return 0, sent;
    }

    var page := CStr(response.Body().value);
    var ip := ExtractValue(page, "ip");
    var username := ExtractValue(page, "username");
    var building := ExtractValue(page, "building");
    response.Free();

    var postData := ApprovePostData(duration, ip, username, building);
    sent := sent + [Post(APPROVE_URL, postData)];
    reply := Perform(response, postT);
    if !reply.curlOk {
      response.Free();
      return 0, sent;
    }
    if reply.status != 200 && reply.status != 302 {
      response.Free();
      return 0, sent;
    }
    var body := response.Body();
    var success := body.Some? && (HasApprovalMarker(CStr(body.value)) || reply.status == 302);
    response.Free();
    r := if success then 1 else 0;
  }

  /** Approval succeeds exactly when the page GET ends in CURLE_OK and 200,
      the POST in CURLE_OK and 200 or 302, its body is not NULL, and either
      the status is 302 or the body holds one of the three markers. */
  lemma ApprovalSucceedsIff(get: Reply, post: Reply)
    ensures ApprovalSucceeds(get, post) <==>
      get.curlOk && get.status == 200 && post.curlOk && (post.status == 200 || post.status == 302) &&
      post.body.Some? &&
      (post.status == 302 ||
       Contains(CStr(post.body.value), "success") ||
       Contains(CStr(post.body.value), "approved") ||
       Contains(CStr(post.body.value), "authorized"))
  {

  }

  /** A 302 answer is a success whatever its body says, provided there is
      a body: a 302 with a NULL body fails. */
  lemma ApprovalRedirect(get: Reply, post: Reply)
    requires Ok200(get) && post.curlOk && post.status == 302
    ensures ApprovalSucceeds(get, post) <==> post.body.Some?
  {
  }

  /** A 200 answer whose body lacks every marker is a failed approval. */
  lemma ApprovalRejectsUnmarkedBody(get: Reply, post: Reply)
    requires post.status == 200 && post.body.Some?
    requires !Contains(post.body.value, "success")
    requires !Contains(post.body.value, "approved")
    requires !Contains(post.body.value, "authorized")
    ensures !ApprovalSucceeds(get, post)
  {
    var body := post.body.value;
    CStrContains(body, "success");
    CStrContains(body, "approved");
    CStrContains(body, "authorized");
    ApprovalSucceedsIff(get, post);
  }

  /** Any status other than 200 and 302 (404, 500, ...) fails the approval,
      whatever the body says. */
  lemma ApprovalOtherStatus(get: Reply, post: Reply)
    requires post.status != 200 && post.status != 302
    ensures !ApprovalSucceeds(get, post)
  {
  }

  /** The body is the bare duration exactly when some hidden field is
      missing. */
  lemma ApprovePostDataShape(duration: int, ip: Option<string>, username: Option<string>, building: Option<string>)
    requires Int32(duration)
    ensures ApprovePostData(duration, ip, username, building) == "duration=" + Decimal(duration) <==>
            !(ip.Some? && username.Some? && building.Some?)
  {
    DecimalInt32Length(duration);
    var short := "duration=" + Decimal(duration);
    if ip.Some? && username.Some? && building.Some? {
      var full := short + "&ip=" + ip.value + "&username=" + username.value + "&building=" + building.value;
      assert |full| >= |short| + 4;
      assert |ApprovePostData(duration, ip, username, building)| > |short|;
    }
  }

  /** With all three fields extracted and short enough, the body carries
      them verbatim. */
  lemma ApprovePostDataFull(duration: int, ip: string, username: string, building: string)
    requires |Decimal(duration)| + |ip| + |username| + |building| <= 222
    ensures ApprovePostData(duration, Some(ip), Some(username), Some(building)) ==
            "duration=" + Decimal(duration) + "&ip=" + ip + "&username=" + username + "&building=" + building
  {
  }

  /** Extracted hidden values never carry the `"` that delimits them in the
      page, so the fields forwarded in the POST body are quote-free. */
  lemma ApproveFieldsQuoteFree(html: string)
    ensures var ip, username, building := ExtractValue(html, "ip"), ExtractValue(html, "username"), ExtractValue(html, "building");
            (ip.Some? ==> '"' !in ip.value) && (username.Some? ==> '"' !in username.value) &&
            (building.Some? ==> '"' !in building.value)
  {
  }

  // ----- main -----

  /** argv[1] and argv[2] when given, otherwise the built-in placeholders. */
  function Credentials(argv: seq<string>): (string, string) {
    if |argv| >= 3 then (argv[1], argv[2]) else ("USERNAME", "PASSWORD")
  }

  /** The duration: atoi(argv[3]) when given, otherwise 2 (one day). */
  function Duration(argv: seq<string>, parsedDuration: int): (d: int)
    ensures |argv| < 4 ==> d == 2
  {
    if |argv| >= 4 then parsedDuration else 2
  }

  predicate DurationValid(d: int) {
    d == 1 || d == 2
  }

  /** main, given argv, the value atoi gives for argv[3], and the handle
      curl_easy_init returns (null when it fails). */
  method RunTool(argv: seq<string>, parsedDuration: int, handle: CurlHandle?,
                 loginGet: Transfer, loginPost: Transfer, approveGet: Transfer, approvePost: Transfer)
    returns (exitCode: int, sent: seq<Request>)
    requires handle != null ==> handle.open
    requires (DurationValid(Duration(argv, parsedDuration)) && handle != null &&
              LoginSucceeds(Observe(loginGet), Observe(loginPost))) ==> PageHasBody(Observe(approveGet))
    modifies handle
    ensures var d := Duration(argv, parsedDuration);
            exitCode == if DurationValid(d) && handle != null &&
                           LoginSucceeds(Observe(loginGet), Observe(loginPost)) &&
                           ApprovalSucceeds(Observe(approveGet), Observe(approvePost)) then 0 else 1
    ensures var d := Duration(argv, parsedDuration);
            var credentials := Credentials(argv);
            sent == if !DurationValid(d) || handle == null then []
                    else LoginRequests(credentials.0, credentials.1, Observe(loginGet)) +
                         if LoginSucceeds(Observe(loginGet), Observe(loginPost)) then ApproveRequests(d, Observe(approveGet)) else []
    ensures handle != null && DurationValid(Duration(argv, parsedDuration)) ==> !handle.open
    ensures handle != null && !DurationValid(Duration(argv, parsedDuration)) ==> handle.open
  {
    var username, password := "USERNAME", "PASSWORD";
    var duration := 2;
    if |argv| >= 3 {
      username, password := argv[1], argv[2];
    }
    if |argv| >= 4 {
      duration := parsedDuration;
      if duration != 1 && duration != 2 {
        return 1, [];
      }
    }

    var session := new SessionData();
    var initialized := session.InitSession(handle);
    if !initialized {
      return 1, [];
    }

    var success := false;
    var loggedIn, loginSent := PerformLogin(session, username, password, loginGet, loginPost);
    sent := loginSent;
    if loggedIn != 0 {
      var approved, approveSent := ApproveMachine(session, duration, approveGet, approvePost);
      sent := sent + approveSent;
      success := approved != 0;
    }

    session.CleanupSession();
    exitCode := if success then 0 else 1;
  }
}
