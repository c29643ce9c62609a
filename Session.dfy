/** struct SessionData of auto-netaccess.c: the libcurl easy handle shared
    by every request of a run, set up by InitSession and released by
    CleanupSession. */
module Session {

  /** MAX_COOKIE_SIZE: the size of the (otherwise unused) cookie buffer. */
  const MAX_COOKIE_SIZE: nat := 4096

  /** A libcurl easy handle; `open` until curl_easy_cleanup releases it. */
  class CurlHandle {
    var open: bool

    /** curl_easy_init succeeding. */
    constructor ()
      ensures open
    {
      open := true;
    }

    /** curl_easy_cleanup. */
    method Cleanup()
      modifies this
      ensures !open
    {
      open := false;
    }
  }

  class SessionData {
    var cookies: seq<char>
    var curl: CurlHandle?

    /** The handle can carry requests. */
    predicate Ready()
      reads this, curl
    {
      curl != null && curl.open
    }

    /** The `struct SessionData session;` of main, before InitSession. */
    constructor ()
      ensures curl == null && cookies == []
    {
      curl := null;
      cookies := [];
    }

    /** InitSession, given what curl_easy_init returned (null when it
        failed). It fails exactly when there is no handle; on success the
        cookie buffer is zeroed. The handle options are not modelled. */
    method InitSession(handle: CurlHandle?) returns (ok: bool)
      modifies this
      ensures curl == handle && ok == (handle != null)
      ensures ok ==> cookies == seq(MAX_COOKIE_SIZE, _ => '\0')
      ensures !ok ==> cookies == old(cookies)
    {
      curl := handle;
      if curl == null {
        return false;
      }
      cookies := seq(MAX_COOKIE_SIZE, _ => '\0');
      ok := true;
    }

    /** CleanupSession: release the handle and forget it, so that a second
        call finds nothing to release and changes nothing. */
    method CleanupSession()
      modifies this, curl
      ensures curl == null && cookies == old(cookies)
      ensures old(curl) != null ==> !old(curl).open
      ensures old(curl) == null ==> unchanged(this)
    {
      if curl != null {
        curl.Cleanup();
        curl := null;
      }
    }
  }
}
