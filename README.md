# netaccess login/approval tool, modelled in Dafny

The tool logs a user into the IIT Madras NetAccess portal and then asks the
portal to grant the current machine internet access for one hour or one day.
Two variants exist: a C program built on libcurl (`auto-netaccess.c`) and a
Python script built on `requests` (`auto_netaccess-req.py`). This project
models the decision logic of both over abstract HTTP exchanges:

- `Text.dfy`: C strings that end at the first NUL, the libc searches `strstr`
  and `strchr`, `snprintf` truncation into fixed buffers, `%d` rendering,
  ASCII lower-casing.
- `HiddenField.dfy`: `ExtractValue`, which reads the value of a hidden form
  field from the approve page.
- `Response.dfy`: the 1 MiB response buffer (`struct ResponseData`,
  `WriteCallback`) as a class over an array. It also models how libcurl hands
  a body to the callback in chunks, and what the flows observe afterwards.
- `Session.dfy`: the session and its libcurl handle (`InitSession`,
  `CleanupSession`).
- `NetAccess.dfy`: `PerformLogin`, `ApproveMachine` and `main` of the C
  program. Each is a method that runs the buffer for each exchange and
  returns its verdict and the requests it issued. It is proved against
  decision predicates, and lemmas state what those predicates mean.
- `NetAccessReq.dfy`: `login`, `approve_machine`, `get_authorized_machines`
  and `main` of the Python script, as pure functions over exchange results.
- `Variants.dfy`: inputs on which the two variants reach different verdicts.

In the C model an exchange is a `Transfer`: whether the transport completed,
the status code, and the body chunks libcurl delivers. `Observe` turns it
into the `Reply` the C code inspects: CURLE_OK or not, the status, and
`response.data` (None for NULL). In the Python model an exchange is an
`HttpResult`: an exception, or a status and text.

Where the code and the intended workflow differ, the model follows the code:

- The C approval markers ("success", "approved", "authorized") are matched
  with case significant, because the code uses `strstr`.
- A 302 answer to the approval POST counts as success only when its body is
  not NULL (auto-netaccess.c:242-249).
- The C login body `username=..&password=..` is not form-encoded
  (auto-netaccess.c:124). `NetAccess.LoginPostDataNotEncoded` shows two
  credential pairs that give the same body.
- Every failure of the C program, an invalid duration included, exits with
  code 1.
- The C program's markers are searched in the body read as a C string, that is, up to
  its first NUL byte.

## Model

| member | source | states |
|---|---|---|
| `Text.CStr` | auto-netaccess.c:146-148 | the C string a buffer holds is its longest NUL-free prefix: it stops exactly at the first NUL |
| `Text.StrStr` | auto-netaccess.c:72 | strstr returns the leftmost occurrence of the needle, or NULL exactly when the needle does not occur |
| `Text.StrStrFindsIff` | auto-netaccess.c:146-148 | a non-NULL strstr result is the same as the substring relation |
| `Text.CStrContains` | auto-netaccess.c:146-148 | a marker found in the C string of a buffer occurs in the buffer |
| `Text.StrChrFrom` | auto-netaccess.c:76 | strchr returns the first index of the character at or after the start, or NULL when it does not occur there |
| `Text.Truncate` | auto-netaccess.c:70 | snprintf keeps the whole text when it fits, and otherwise exactly its first size-1 characters |
| `Text.Decimal` | auto-netaccess.c:206 | %d prints digits with no leading zero (a leading `0` only for zero), and a leading minus sign exactly for negatives |
| `Text.DecimalRoundTrip` | auto-netaccess.c:206 | the printed digits denote the number back |
| `Text.DecimalInt32Length` | auto-netaccess.c:164 | a C int prints in at most eleven characters |
| `Text.LowerOfUpper` | auto_netaccess-req.py:57 | lower-casing ignores a prior upper-casing |
| `Text.Lower` | auto_netaccess-req.py:57 | `.lower()` keeps the length and maps each ASCII capital to its small letter, leaving every other character as it is |
| `HiddenField.Pattern` | auto-netaccess.c:69-70 | the search pattern is a prefix of `name="<name>" value="` of at most 255 characters, all of it for names up to 240 characters, and exactly 255 characters for longer names |
| `HiddenField.ExtractValue` | auto-netaccess.c:68-86 | a value holds no `"` and is the text between the end of the leftmost occurrence of the pattern and the next `"`; NULL only when no `"` follows the leftmost occurrence or there is none |
| `HiddenField.FirstAtUnique` | auto-netaccess.c:72 | the leftmost occurrence strstr finds is unique |
| `HiddenField.ExtractAbsent` | auto-netaccess.c:72-73 | no occurrence of the pattern gives NULL |
| `HiddenField.ExtractUnterminated` | auto-netaccess.c:75-77 | no `"` after the leftmost occurrence gives NULL, with no read past the text |
| `HiddenField.ExtractRoundTrip` | auto-netaccess.c:68-86 | a field written as `name="X" value="V"`, first of its kind, with V free of `"`, is read back as exactly V |
| `HiddenField.QuoteEnds` | auto-netaccess.c:76-79 | the extracted span runs exactly to the first `"` |
| `Response.Accepted` | auto-netaccess.c:28-31 | the callback accepts at most the chunks delivered |
| `Response.ConcatPrefix` | auto-netaccess.c:39-40 | appending one more chunk extends the joined body by that chunk |
| `Response.AcceptedAll` | auto-netaccess.c:26-31 | every chunk is accepted exactly when the whole body is at most 1 MiB (a total of exactly 1 MiB passes) |
| `Response.AcceptedBounded` | auto-netaccess.c:6 | what is buffered never exceeds 1 MiB |
| `Response.ResponseData.constructor` | auto-netaccess.c:90 | a fresh buffer is NULL with size 0 |
| `Response.ResponseData.WriteCallback` | auto-netaccess.c:24-44 | a chunk that would take the size past 1 MiB is refused with 0 and changes nothing; otherwise the contents become old contents plus the chunk, size grows by size*nmemb, `data[size]` is NUL and the chunk length is returned; the buffer stays within 1 MiB |
| `Response.ResponseData.Free` | auto-netaccess.c:119-121 | after free and reset, `data` is NULL and `size` 0 |
| `Response.ResponseData.Receive` | auto-netaccess.c:55 | libcurl delivering chunks to WriteCallback leaves the joined accepted prefix in the buffer, and stops at the first refused chunk |
| `Response.Observe` | auto-netaccess.c:28-31 | a body over 1 MiB fails the request; a body that fits is seen whole, never truncated; the buffer never exceeds 1 MiB |
| `Response.Perform` | auto-netaccess.c:103-112 | one curl_easy_perform into a reset buffer yields the observed reply of the transfer |
| `Session.CurlHandle.constructor` | auto-netaccess.c:48 | a handle from curl_easy_init is open |
| `Session.CurlHandle.Cleanup` | auto-netaccess.c:259 | curl_easy_cleanup releases the handle |
| `Session.SessionData.constructor` | auto-netaccess.c:265 | the session starts without a handle |
| `Session.SessionData.InitSession` | auto-netaccess.c:47-65 | init fails exactly when curl_easy_init gave no handle; on success the handle is stored and the cookie buffer zeroed |
| `Session.SessionData.CleanupSession` | auto-netaccess.c:257-262 | the handle is released and set to NULL; with no handle the call changes nothing, so a second call is a no-op |
| `NetAccess.LoginPostData` | auto-netaccess.c:124 | the login body is a prefix of `username=U&password=P`: all of it when it fits in 511 characters, otherwise exactly its first 511 |
| `NetAccess.LoginSucceeds` | auto-netaccess.c:103-160 | the login verdict PerformLogin is proved against; its meaning (CURLE_OK and 200 twice, a non-NULL body holding a case-sensitive marker) is stated by `NetAccess.LoginSucceedsIff` and `NetAccess.LoginRejectsUnmarkedBody` |
| `NetAccess.PerformLogin` | auto-netaccess.c:89-161 | returns 1 exactly when the login predicate holds of the two observed replies, else 0; issues the GET, and the POST only after a CURLE_OK 200 GET |
| `NetAccess.LoginSucceedsIff` | auto-netaccess.c:103-160 | login succeeds iff GET and POST both end in CURLE_OK and 200, the POST body is not NULL and it contains "Dashboard", "Approve a Device" or "User Profile" |
| `NetAccess.LoginRejectsUnmarkedBody` | auto-netaccess.c:144-160 | a POST body without any marker fails the login even with status 200 |
| `NetAccess.LoginMarkerCaseSensitive` | auto-netaccess.c:146-148 | a lower-case "dashboard" page is not a login |
| `NetAccess.LoginPostDataExact` | auto-netaccess.c:124 | short credentials are written verbatim into the body |
| `NetAccess.LoginPostDataNotEncoded` | auto-netaccess.c:124 | credentials are not encoded, so two different pairs can give the same body |
| `NetAccess.ApproveMachine` | auto-netaccess.c:164-254 | returns 1 exactly when the approval predicate holds of the two observed replies, else 0; issues the GET, and the POST only after a CURLE_OK 200 GET, with the body built from the page's hidden fields |
| `NetAccess.ApprovalSucceeds` | auto-netaccess.c:178-253 | the approval verdict ApproveMachine is proved against; its meaning is stated by `NetAccess.ApprovalSucceedsIff`, `NetAccess.ApprovalRedirect`, `NetAccess.ApprovalRejectsUnmarkedBody` and `NetAccess.ApprovalOtherStatus` |
| `NetAccess.ApprovePostData` | auto-netaccess.c:202-211 | the approval body fits `postData[256]` and always starts with `duration=`; `NetAccess.ApprovePostDataShape` and `NetAccess.ApprovePostDataFull` state its two forms |
| `NetAccess.ApprovalSucceedsIff` | auto-netaccess.c:178-253 | approval succeeds iff the GET ends in CURLE_OK and 200, the POST in CURLE_OK and 200 or 302, its body is not NULL, and the status is 302 or the body contains "success", "approved" or "authorized" |
| `NetAccess.ApprovalRedirect` | auto-netaccess.c:234-249 | after a good GET, a CURLE_OK 302 succeeds exactly when the body is not NULL, whatever it says |
| `NetAccess.ApprovalRejectsUnmarkedBody` | auto-netaccess.c:240-253 | a 200 POST body without a marker fails the approval |
| `NetAccess.ApprovalOtherStatus` | auto-netaccess.c:233-238 | any POST status other than 200 and 302 fails the approval |
| `NetAccess.ApprovePostDataShape` | auto-netaccess.c:204-211 | the body is the bare `duration=D` exactly when some hidden field was not extracted |
| `NetAccess.ApprovePostDataFull` | auto-netaccess.c:204-207 | with all three fields extracted and short enough, the body is `duration=D&ip=..&username=..&building=..` verbatim |
| `NetAccess.ApproveFieldsQuoteFree` | auto-netaccess.c:194-196 | no extracted hidden value forwarded in the POST contains `"` |
| `NetAccess.Duration` | auto-netaccess.c:268-281 | without a third argument the duration is 2 |
| `NetAccess.Credentials` | auto-netaccess.c:264-274 | argv[1] and argv[2] when both are given, else the `USERNAME`/`PASSWORD` placeholders; `NetAccess.RunTool`'s request trace shows them posted by login |
| `NetAccess.RunTool` | auto-netaccess.c:264-315 | an invalid supplied duration exits 1 before any init or request; approval is attempted only after a successful login; the exit code is 0 iff init, login and approval all succeed, else 1; an initialised handle is released at the end |
| `NetAccessReq.GetAuthorizedMachines` | auto_netaccess-req.py:110-127 | the page text exactly on a 200 answer, None on any other status or an exception |
| `NetAccessReq.Login` | auto_netaccess-req.py:26-66 | login always GETs the landing page first and POSTs only after a 200 there; True needs two 200 answers; see `NetAccessReq.LoginSucceedsIff`, `NetAccessReq.LoginNeedsLandingPage` and `NetAccessReq.LoginPostsCredentials` |
| `NetAccessReq.ApproveMachine` | auto_netaccess-req.py:68-108 | approve_machine always GETs the approve page first and POSTs only after a 200 there; see `NetAccessReq.ApproveSucceedsIff`, `NetAccessReq.ApproveIgnoresBody` and `NetAccessReq.ApprovePostsDuration` |
| `NetAccessReq.RunMain` | auto_netaccess-req.py:129-170 | main starts with the login GET and succeeds exactly when it reaches the final machine-list GET, the fifth request; see `NetAccessReq.MainSucceedsIff` and `NetAccessReq.MainIgnoresMachines` |
| `NetAccessReq.LoginNeedsLandingPage` | auto_netaccess-req.py:30-37 | login returns False without posting unless the landing GET answered 200 |
| `NetAccessReq.LoginPostsCredentials` | auto_netaccess-req.py:41-50 | login posts userLogin, userPassword and submit='Log in' to /account/login |
| `NetAccessReq.LoginSucceedsIff` | auto_netaccess-req.py:52-66 | login returns True iff both answers are 200 and the lower-cased POST text contains "logout" or "authorized machines"; an exception gives False |
| `NetAccessReq.LoginIgnoresCase` | auto_netaccess-req.py:57 | an upper-cased answer gives the same login verdict |
| `NetAccessReq.ApproveSucceedsIff` | auto_netaccess-req.py:73-108 | approve_machine returns True iff the GET and POST both answered 200, so a 302 fails; an exception gives False |
| `NetAccessReq.ApproveIgnoresBody` | auto_netaccess-req.py:97-103 | the approval verdict does not depend on the POST answer's text |
| `NetAccessReq.ApprovePostsDuration` | auto_netaccess-req.py:85-91 | the approval POST carries duration=str(duration) and approveBtn='Authorize' |
| `NetAccessReq.MainSucceedsIff` | auto_netaccess-req.py:143-165 | main returns True iff login and approval both succeed; after a failed login nothing but the login requests is sent |
| `NetAccessReq.MainIgnoresMachines` | auto_netaccess-req.py:158-165 | the machine-list fetch does not change main's result |
| `Variants.RedirectSplitsVariants` | auto-netaccess.c:234-247 | a 302 with a body approves in the C program but fails in the Python script (auto_netaccess-req.py:93) |
| `Variants.UnmarkedApprovalSplitsVariants` | auto_netaccess-req.py:97-103 | a 200 answer without a marker approves in the Python script but not in the C program |
| `Variants.LogoutSplitsVariants` | auto_netaccess-req.py:57 | an upper-case "LOGOUT" page logs the Python script in but not the C program |
| `Variants.DashboardSplitsVariants` | auto-netaccess.c:146 | a "Dashboard" page logs the C program in but not the Python script |
| `Variants.DashboardMissedByScript` | auto_netaccess-req.py:57 | "Dashboard" holds neither Python login marker |
| `Variants.DashboardFoundByC` | auto-netaccess.c:146 | "Dashboard" holds a C login marker |

## Left out

- libcurl and `requests` internals are not modelled: the handle options (redirect following, the 30-second timeout, the user agent, disabled TLS verification, the cookie engine), `curl_global_init` and `curl_global_cleanup`, and the session headers of the Python `__init__`. Each exchange is an input value. Cookie persistence between the exchanges of a run is therefore not represented. With redirect following on, a real 302 may never reach the code as a final status; the model accepts any status as input.
- Console output (`printf`, `print`) is left out, including the "submitted successfully" line that the C approval prints whatever the outcome.
- `realloc` and `malloc` failures are left out: allocation always succeeds in the model.
- Response.ResponseData.WriteCallback: does not model `size_t` wrap-around of `size * nmemb`, because the chunk is given as a sequence that really holds that many bytes and the buffered size stays within 1 MiB.
- NetAccess.ApproveMachine: requires that a GET answered with CURLE_OK and 200 delivered a body, because `ExtractValue` on a NULL page is undefined behaviour in the C code. `NetAccess.RunTool` requires it only of runs that reach `ApproveMachine`: a valid duration, an initialised handle and a successful login.
- `atoi` is not modelled: `NetAccess.RunTool` takes the value it returns for `argv[3]` as an input.
- Python's `str.lower()` is modelled for ASCII letters only. Unicode characters that lower-case to ASCII letters are not covered.
- `urljoin` is not modelled; the URLs it produces are constants.
- An exception raised while constructing `NetAccessAuth` in the Python `main` is not modelled.
- `auto_netaccess.py` and `auto_netaccess-chromium.py` are Selenium browser scripts driven by sleeps, with no decision logic to model.
