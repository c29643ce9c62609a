/** The `requests`-based variant, auto_netaccess-req.py: NetAccessAuth's
    login, approve_machine and get_authorized_machines, and main. Each call
    into the library is an input HttpResult (an exception, or a response);
    each method yields its return value together with the requests it made. */
module NetAccessReq {
  import opened Text

  /** The outcome of one `session.get` / `session.post`. */
  datatype HttpResult = Raised | Answered(status: int, text: string)

  /** A request made through the session: a GET, or a POST of form data. */
  datatype HttpRequest = GetUrl(url: string) | PostForm(url: string, data: seq<(string, string)>)

  /** What a method returns, and the requests it made on the way. */
  datatype Call = Call(ok: bool, sent: seq<HttpRequest>)

  const BASE_URL: string := "https://netaccess.iitm.ac.in"
  /** urljoin(BASE_URL, '/') and friends. */
  const LOGIN_PAGE_URL: string := BASE_URL + "/"
  const LOGIN_POST_URL: string := BASE_URL + "/account/login"
  const APPROVE_URL: string := BASE_URL + "/account/approve"

  /** The placeholders main passes to login. */
  const USERNAME: string := "USERNAME"
  const PASSWORD: string := "PASSWORD"

  predicate Is200(r: HttpResult) {
    r.Answered? && r.status == 200
  }

  function LoginData(username: string, password: string): seq<(string, string)> {
    [("userLogin", username), ("userPassword", password), ("submit", "Log in")]
  }

  /** The success test of login, on the lower-cased response text. */
  predicate LoginMarker(text: string) {
    Contains(Lower(text), "logout") || Contains(Lower(text), "authorized machines")
  }

  /** NetAccessAuth.login: GET the landing page, POST the credentials,
      then look for a marker. An exception anywhere yields False. */
  function Login(username: string, password: string, landing: HttpResult, submit: HttpResult): (r: Call)
    ensures 1 <= |r.sent| <= 2 && r.sent[0] == GetUrl(LOGIN_PAGE_URL)
    ensures |r.sent| == 2 <==> Is200(landing)
    ensures r.ok ==> Is200(landing) && Is200(submit)
  {
    var fetch := [GetUrl(LOGIN_PAGE_URL)];
    match landing
    case Raised => Call(false, fetch)
    case Answered(status, _) =>
      if status != 200 then Call(false, fetch)
      else
        var sent := fetch + [PostForm(LOGIN_POST_URL, LoginData(username, password))];
        match submit
        case Raised => Call(false, sent)
        case Answered(status', text) =>
          if status' != 200 then Call(false, sent)
          else Call(LoginMarker(text), sent)
  }

  function ApproveData(duration: int): seq<(string, string)> {
    [("duration", Decimal(duration)), ("approveBtn", "Authorize")]
  }

  /** NetAccessAuth.approve_machine: GET the approve page, POST the
      duration; any 200 answer to the POST is a success (both branches of
      the marker test return True). An exception yields False. */
  function ApproveMachine(duration: int, page: HttpResult, submit: HttpResult): (r: Call)
    ensures 1 <= |r.sent| <= 2 && r.sent[0] == GetUrl(APPROVE_URL)
    ensures |r.sent| == 2 <==> Is200(page)
  {
    var fetch := [GetUrl(APPROVE_URL)];
    match page
    case Raised => Call(false, fetch)
    case Answered(status, _) =>
      if status != 200 then Call(false, fetch)
      else
        var sent := fetch + [PostForm(APPROVE_URL, ApproveData(duration))];
        match submit
        case Raised => Call(false, sent)
        case Answered(status', text) =>
          if status' != 200 then Call(false, sent)
          else if Contains(Lower(text), "success") || Contains(Lower(text), "authorized") then Call(true, sent)
          else Call(true, sent)
  }

  /** NetAccessAuth.get_authorized_machines: the page text on a 200, None on
      any other status or an exception. */
  function GetAuthorizedMachines(reply: HttpResult): (r: Option<string>)
    ensures r.Some? <==> Is200(reply)
    ensures r.Some? ==> r.value == reply.text
  {
    match reply
    case Raised => None
    case Answered(status, text) => if status == 200 then Some(text) else None
  }

  /** main: log in with the placeholders, approve for one day (duration 2),
      then fetch the machine list, whose result is not used. */
  function RunMain(landing: HttpResult, submit: HttpResult, page: HttpResult, approval: HttpResult,
                   machines: HttpResult): (r: Call)
    ensures |r.sent| > 0 && r.sent[0] == GetUrl(LOGIN_PAGE_URL)
    ensures r.ok <==> |r.sent| == 5
    ensures r.ok ==> r.sent[4] == GetUrl(BASE_URL)
  {
    var login := Login(USERNAME, PASSWORD, landing, submit);
    if !login.ok then Call(false, login.sent)
    else
      var approve := ApproveMachine(2, page, approval);
      if !approve.ok then Call(false, login.sent + approve.sent)
      else
        var _ := GetAuthorizedMachines(machines);
        Call(true, login.sent + approve.sent + [GetUrl(BASE_URL)])
  }

  /** login gives up before posting unless the landing page answered 200. */
  lemma LoginNeedsLandingPage(username: string, password: string, landing: HttpResult, submit: HttpResult)
    requires !Is200(landing)
    ensures Login(username, password, landing, submit) == Call(false, [GetUrl(LOGIN_PAGE_URL)])
  {
  }

  /** login posts userLogin, userPassword and submit='Log in' to
      /account/login once the landing page answered 200. */
  lemma LoginPostsCredentials(username: string, password: string, landing: HttpResult, submit: HttpResult)
    requires Is200(landing)
    ensures Login(username, password, landing, submit).sent ==
            [GetUrl(LOGIN_PAGE_URL), PostForm(LOGIN_POST_URL, LoginData(username, password))]
  {
  }

  /** login succeeds exactly when both answers are 200 and the lower-cased
      POST text holds "logout" or "authorized machines". */
  lemma LoginSucceedsIff(username: string, password: string, landing: HttpResult, submit: HttpResult)
    ensures Login(username, password, landing, submit).ok <==>
            Is200(landing) && Is200(submit) &&
            (Contains(Lower(submit.text), "logout") || Contains(Lower(submit.text), "authorized machines"))
  {
  }

  /** The markers are matched without regard to ASCII case: an upper-cased
      page gives the same verdict. */
  lemma LoginIgnoresCase(username: string, password: string, landing: HttpResult, status: int, text: string)
    ensures Login(username, password, landing, Answered(status, Upper(text))).ok ==
            Login(username, password, landing, Answered(status, text)).ok
  {
    LowerOfUpper(text);
  }

  /** approve_machine succeeds exactly when both answers are 200; a 302 is
      a failure. */
  lemma ApproveSucceedsIff(duration: int, page: HttpResult, submit: HttpResult)
    ensures ApproveMachine(duration, page, submit).ok <==> Is200(page) && Is200(submit)
  {
  }

  /** approve_machine's verdict and requests do not depend on the text of
      the answer to its POST. */
  lemma ApproveIgnoresBody(duration: int, page: HttpResult, status: int, text1: string, text2: string)
    ensures ApproveMachine(duration, page, Answered(status, text1)) ==
            ApproveMachine(duration, page, Answered(status, text2))
  {
  }

  /** The approval POST carries the duration as text and approveBtn. */
  lemma ApprovePostsDuration(duration: int, page: HttpResult, submit: HttpResult)
    requires Is200(page)
    ensures ApproveMachine(duration, page, submit).sent ==
            [GetUrl(APPROVE_URL), PostForm(APPROVE_URL, [("duration", Decimal(duration)), ("approveBtn", "Authorize")])]
  {
  }

  /** main succeeds exactly when login and approval both do; approval is
      attempted only after a successful login. */
  lemma MainSucceedsIff(landing: HttpResult, submit: HttpResult, page: HttpResult, approval: HttpResult,
                        machines: HttpResult)
    ensures RunMain(landing, submit, page, approval, machines).ok <==>
            Login(USERNAME, PASSWORD, landing, submit).ok && ApproveMachine(2, page, approval).ok
    ensures !Login(USERNAME, PASSWORD, landing, submit).ok ==>
            RunMain(landing, submit, page, approval, machines).sent == Login(USERNAME, PASSWORD, landing, submit).sent
  {
  }

  /** The machine list fetched at the end does not affect main's result. */
  lemma MainIgnoresMachines(landing: HttpResult, submit: HttpResult, page: HttpResult, approval: HttpResult,
                            machines1: HttpResult, machines2: HttpResult)
    ensures RunMain(landing, submit, page, approval, machines1) == RunMain(landing, submit, page, approval, machines2)
  {
  }
}
