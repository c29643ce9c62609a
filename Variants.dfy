/** Where the C tool (auto-netaccess.c) and the `requests` script
    (auto_netaccess-req.py) reach different verdicts on the same answers. */
module Variants {
  import opened Text
  import opened Response
  import C = NetAccess
  import Py = NetAccessReq

  /** A 302 answer to the approval POST: the C tool takes it as approval
      (given a body), the script as failure. */
  lemma RedirectSplitsVariants(page: string, text: string)
    ensures C.ApprovalSucceeds(Reply(true, 200, Some(page)), Reply(true, 302, Some(text)))
    ensures !Py.ApproveMachine(2, Py.Answered(200, page), Py.Answered(302, text)).ok
  {
  }

  /** A 200 answer to the approval POST that names none of the C markers:
      the script approves, the C tool does not. */
  lemma UnmarkedApprovalSplitsVariants(page: string, text: string)
    requires !Contains(text, "success") && !Contains(text, "approved") && !Contains(text, "authorized")
    ensures !C.ApprovalSucceeds(Reply(true, 200, Some(page)), Reply(true, 200, Some(text)))
    ensures Py.ApproveMachine(2, Py.Answered(200, page), Py.Answered(200, text)).ok
  {
    C.ApprovalRejectsUnmarkedBody(Reply(true, 200, Some(page)), Reply(true, 200, Some(text)));
  }

  /** The two variants look for different login markers, and only the
      script ignores case: an upper-case "LOGOUT" page logs the script in
      but not the C tool. */
  lemma LogoutSplitsVariants(page: string)
    ensures !C.LoginSucceeds(Reply(true, 200, Some(page)), Reply(true, 200, Some("LOGOUT")))
    ensures Py.Login("u", "p", Py.Answered(200, page), Py.Answered(200, "LOGOUT")).ok
  {
    C.LoginRejectsUnmarkedBody(Reply(true, 200, Some(page)), Reply(true, 200, Some("LOGOUT")));
    var lowered := Lower("LOGOUT");
    assert lowered == "logout";
    assert OccursAt(lowered, "logout", 0);
  }

  /** A "Dashboard" page logs the C tool in but not the script. */
  lemma DashboardSplitsVariants(page: string)
    ensures C.LoginSucceeds(Reply(true, 200, Some(page)), Reply(true, 200, Some("Dashboard")))
    ensures !Py.Login("u", "p", Py.Answered(200, page), Py.Answered(200, "Dashboard")).ok
  {
    DashboardFoundByC();
    DashboardMissedByScript();
  }

  lemma DashboardMissedByScript()
    ensures !Py.LoginMarker("Dashboard")
  {
    var text := "Dashboard";
    var lowered := Lower(text);
    forall i | 0 <= i <= |lowered| - 6
      ensures !OccursAt(lowered, "logout", i)
    {
      assert text[i] == 'D' || text[i] == 'a' || text[i] == 's' || text[i] == 'h';
      assert lowered[i] == LowerChar(text[i]) != 'l';
      assert lowered[i..i + 6][0] != "logout"[0];
    }
  }

  lemma DashboardFoundByC()
    ensures C.HasLoginMarker(CStr("Dashboard"))
  {

  }
}
