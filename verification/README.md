# ZAP-Hosting keep-alive, modelled in Dafny

`zap_keepalive.py` keeps ZAP-Hosting accounts alive. It reads its settings from
a `.env` file and parses the `ACCOUNTS` list. For each account it then drives a
browser:
- load the saved session;
- open the dashboard and get past the Cloudflare interstitial;
- log in when the URL says so, with a YesCaptcha-solved reCAPTCHA when an API
  key is set;
- open the VPS detail page, stay, reload and save the session.

Finally it summarises the batch, optionally in a Telegram message, and exits
with 0 exactly when every account succeeded.

This project models the decision rules under that plumbing as pure functions:
- the `.env` line rule (`Config`), built on exact models of Python's
  `str.strip`, `str.split`, `in`, `str.replace` and (ASCII) `str.lower`
  (`Text`);
- `parse_accounts` (`Accounts`);
- the session file name and the session store (`Sessions`);
- the Cloudflare retry loop (`Challenge`);
- the YesCaptcha task protocol (`Captcha`);
- the locator fallback chains (`Browser`) and the login stage machine
  (`LoginFlow`);
- the VPS link selection (`Navigation`);
- one account's `run()` (`Keeper`);
- `main()` (`Batch`).

Whatever the script observes is an explicit input:
- the page, as a list of elements with the selectors each matches, a
  visibility flag and a placeholder;
- one observation per challenge try;
- during the login, one page snapshot per point where the script queries the
  page, each taken after the clicks and fills that precede it;
- the service replies together with the clock readings;
- the URLs;
- the cookie jar.

Browser side effects become a list of `Action`s. Two conventions close the
traces:
- a challenge trace shorter than the number of tries stands for a page that
  stops loading;
- a poll trace that ends stands for a clock that has passed the deadline.

## Model

| member | source | states |
|---|---|---|
| Text.StripUnique | zap_keepalive.py:41-44 | `strip()` is the one trimmed string that the input pads with `isspace` whitespace on both sides |
| Text.StripPadded | zap_keepalive.py:41-44 | the input is its stripped text with only whitespace added before and after |
| Text.StripIdempotent | zap_keepalive.py:41-44 | stripping an already stripped key, value or item changes nothing |
| Text.StripKeepsChars | zap_keepalive.py:81-84 | stripping introduces no character that was not in the input |
| Text.IndexOf | zap_keepalive.py:43 | the position `split('=', 1)` cuts at is the first occurrence; absent exactly when the character does not occur |
| Text.JoinSplit | zap_keepalive.py:80 | `split(',')` loses nothing: joining the pieces with the separator gives the input back |
| Text.SplitAppend | zap_keepalive.py:80 | splitting at a separator splits the two sides independently |
| Text.ContainsLower | zap_keepalive.py:541 | a URL containing a text still contains it once both are lower-cased |
| Text.ReplaceChar | zap_keepalive.py:92 | after `replace(c, rep)` no `c` is left when `rep` has none, every other character survives, and nothing new appears |
| Config.ParseLineCut | zap_keepalive.py:40-44 | a line is skipped exactly when, stripped, it is empty, starts with `#` or has no `=`; otherwise it is cut at the first `=`, so the key holds no `=` and both sides are stripped |
| Config.CommentIgnored | zap_keepalive.py:42 | a line starting with `#` is skipped whatever follows it |
| Config.ParseRender | zap_keepalive.py:42-44 | a trimmed `key=value` line, with no `=` in the key and no leading `#`, reads back as that entry even when the value contains `=` |
| Config.AssignLastWins | zap_keepalive.py:44 | a key is in the dictionary exactly when some kept line sets it, with the value of the last such line |
| Config.LoadEnvLastWins | zap_keepalive.py:39-46 | `load_env` holds a key exactly when some line of the file sets it, and the last such line decides its value |
| Config.LoadEnvAppend | zap_keepalive.py:40-44 | reading more lines overrides exactly the keys they set |
| Config.LookupLastLine | zap_keepalive.py:52-63 | `ENV.get(key, default)` is the default when no line sets the key, and the value of the last line that sets it otherwise |
| Accounts.ParseItem | zap_keepalive.py:81-84 | an item gives an account exactly when its stripped text contains `:`; the email then holds no `:` and both fields are stripped |
| Accounts.ParseItemCut | zap_keepalive.py:81-84 | the account an item gives is its stripped text cut at the first `:`, with both halves stripped again |
| Accounts.ParseItemNoComma | zap_keepalive.py:80-84 | an item that came out of the comma split gives an account with no `,` in either field |
| Accounts.ParseAccounts | zap_keepalive.py:74-86 | the empty setting gives no accounts; there are never more accounts than comma-separated items; every account is well formed |
| Accounts.ParseAccountsAppend | zap_keepalive.py:80-85 | accounts come out in the order they are listed: those of `a,b` are those of `a` followed by those of `b` |
| Accounts.ParseAccountsSingle | zap_keepalive.py:80-85 | a single item gives one account when its stripped text has a `:`, and none otherwise |
| Accounts.ParseRender | zap_keepalive.py:74-86 | writing well-formed accounts as `email:password` items joined by `,` and parsing them gives them back, in order |
| Sessions.Stem | zap_keepalive.py:92 | the safe name holds no `@` and no `.`, and keeps every other character of the email |
| Sessions.FileName | zap_keepalive.py:92-93 | the file name is the safe name followed by `.json`, and holds no `@` |
| Sessions.FileNameStem | zap_keepalive.py:93 | two emails share a file exactly when they share a safe name |
| Sessions.DotUnderscoreCollide | zap_keepalive.py:92 | a `.` and a `_` at the same place give the same file |
| Sessions.AtSpelledOutCollide | zap_keepalive.py:92 | an `@` and the text `_at_` at the same place give the same file |
| Sessions.NotInjective | zap_keepalive.py:89-93 | distinct emails exist that map to the same session file |
| Sessions.Save | zap_keepalive.py:483-488 | after saving, the directory holds the files it held before plus the account's file |
| Sessions.Load | zap_keepalive.py:490-501 | a session loads only from a file that exists; a missing file loads nothing |
| Sessions.LoadSave | zap_keepalive.py:483-501 | what was saved for an account loads back |
| Sessions.LoadSaveOther | zap_keepalive.py:483-501 | saving for one account leaves every account with another file name as it was |
| Sessions.SaveOverwrites | zap_keepalive.py:486-487 | a later save replaces the earlier one |
| Sessions.SessionShared | zap_keepalive.py:89-93 | two accounts whose emails differ only in `.` versus `_` read each other's saved session |
| Browser.QueryFirst | zap_keepalive.py:293 | `query_selector` returns the first matching element in document order, and nothing exactly when none matches |
| Browser.FirstVisible | zap_keepalive.py:317-321 | the loop over `query_selector_all` picks the first visible match, and none exactly when no match is visible |
| Browser.FirstVisibleOfVisibleFirst | zap_keepalive.py:334-339 | when the first match is visible, the first visible match is that same element |
| Browser.ChainHitFirst | zap_keepalive.py:291-296 | a fallback chain finds nothing exactly when every selector finds nothing, and otherwise returns what the first successful selector finds |
| Challenge.Loop | zap_keepalive.py:200-222 | from try `k`: success exactly when some remaining try clears; it stops at the first clearing try; a failure uses every try; the events are one press/release pair per dispatching try |
| Challenge.Clear | zap_keepalive.py:198-223 | `handle_cloudflare` succeeds exactly when one of the first `max_attempts` tries shows a title without "Just a moment"; the tries before it do not clear; a failure uses all tries; a press and a release are dispatched only on tries that loaded, still showed the marker and found the wrapper box |
| Challenge.Clicks | zap_keepalive.py:215-221 | the challenge only dispatches mouse events: it never navigates or touches the session |
| Challenge.ZeroAttempts | zap_keepalive.py:200 | no tries mean failure with no events |
| Challenge.NeverLoads | zap_keepalive.py:201-208 | tries whose load or title read raises each use up a try and dispatch nothing |
| Challenge.MoreAttemptsAgree | zap_keepalive.py:198-205 | a page that clears within `n` tries clears the same way, with the same events, under any larger budget |
| Challenge.UnusedTriesIrrelevant | zap_keepalive.py:200-205 | only the tries actually made affect the result |
| Captcha.CreateTask | zap_keepalive.py:141-156 | `create_task` returns the `taskId` field exactly when `errorId` is 0, and raises a service error otherwise |
| Captcha.Decide | zap_keepalive.py:166-170 | a reply that ends polling returns a value exactly when `errorId` is 0 and the solution is not `null`, and that value is the solution's `gRecaptchaResponse` (nothing when the field or the solution is missing); it is never a timeout |
| Captcha.GetResult | zap_keepalive.py:158-173 | every request is made before `max_wait`; a timeout means every reply was pending and the deadline has passed; otherwise the first non-pending reply decides |
| Captcha.RequestBound | zap_keepalive.py:162-171 | when turn `j` starts no earlier than `3 * j` seconds in, the last request starts before `max_wait`, so at most `max_wait / 3` rounded up requests (40 by default) are made |
| Captcha.LaterPollsIrrelevant | zap_keepalive.py:162-170 | replies after the one that ends the loop are never requested |
| Captcha.SolveToken | zap_keepalive.py:175-182 | when the task was created, `solve` returns the `gRecaptchaResponse` of the first ready reply that came before the deadline after only pending ones |
| Captcha.SolveOk | zap_keepalive.py:175-182 | a token comes back exactly when the task was created and a ready reply came before the deadline after only pending ones |
| LoginFlow.Fallback | zap_keepalive.py:298-305 | the fallback picks the first visible text or email input whose lower-cased placeholder lacks "search", and none exactly when there is no such input |
| LoginFlow.EmailField | zap_keepalive.py:289-305 | the email field is the chain's pick when the chain finds one, and the fallback's otherwise; it is always visible |
| LoginFlow.EmailFieldFound | zap_keepalive.py:289-305 | an email field is found exactly when some chain selector's first match is visible or some input passes the fallback test |
| LoginFlow.PasswordField | zap_keepalive.py:315-321 | the password field is the first visible password input, and none exactly when no password input is visible |
| LoginFlow.SubmitAction | zap_keepalive.py:331-346 | the first selector with a visible match is clicked; with none, Enter is pressed in the password field |
| LoginFlow.CaptchaActions | zap_keepalive.py:349-365 | a token is injected exactly when a solver is configured and solving succeeds, and it is the token `solve` returned; otherwise nothing happens |
| LoginFlow.ConfirmAction | zap_keepalive.py:369-375 | the modal button's first match is clicked exactly when it is visible; otherwise Enter is pressed on the page |
| LoginFlow.OpenDialog | zap_keepalive.py:267-284 | the first "Accept all" button on the login page is clicked when there is one, then the login link the fallback chain finds on the page after that, when there is one; nothing else happens |
| LoginFlow.Prelude | zap_keepalive.py:254-263 | a login starts by going to the login URL, followed only by challenge mouse events |
| LoginFlow.Login | zap_keepalive.py:250-387 | the login stops at the failed challenge, at the missing email field or at the missing password field, in that order; it succeeds exactly when it got through and the final URL contains `customer` |
| LoginFlow.ShortCircuit | zap_keepalive.py:261-329 | a stopped login fills nothing after the missing step and submits, injects and confirms nothing; a failed challenge leaves only the navigation and its mouse events |
| LoginFlow.LoginConfirmed | zap_keepalive.py:307-375 | once both fields are found, the last actions are: click and fill the email field, click and fill the password field, submit, inject the solved token when there is one, confirm; everything before is navigation, mouse events and clicks |
| LoginFlow.SubmittedEnds | zap_keepalive.py:307-346 | the submission clicks and fills the email, then clicks and fills the password, then submits |
| LoginFlow.CaptchaIrrelevant | zap_keepalive.py:349-365 | whatever the CAPTCHA service replies, or whether a key is set at all, the login reaches the same stage with the same result and the same actions apart from the injected token |
| LoginFlow.LoginPageOnly | zap_keepalive.py:250-387 | a login never loads or saves the session and never closes the browser |
| Navigation.CandidatesKeep | zap_keepalive.py:428-436 | the page script keeps exactly the anchors with a non-empty `href` containing `vserver` |
| Navigation.CandidatesAppend | zap_keepalive.py:428-436 | the kept anchors stay in document order: filtering a concatenation filters each part |
| Navigation.FirstDetailFirst | zap_keepalive.py:439-443 | the loop picks the first link containing `/id/` or `/show/`, and none exactly when no link contains either |
| Navigation.FirstQualifying | zap_keepalive.py:428-443 | the first anchor in document order that passes both filters, and none exactly when no anchor does |
| Navigation.SelectDetailFirst | zap_keepalive.py:428-443 | the page filter followed by the loop picks exactly the first anchor in document order that passes both tests |
| Navigation.DetailStep | zap_keepalive.py:439-443 | there is one navigation to the chosen link when there is one, and none otherwise |
| Navigation.Visit | zap_keepalive.py:389-465 | the visit succeeds exactly when the dashboard challenge clears and the final URL contains `vserver` |
| Navigation.ApproachPlain | zap_keepalive.py:391-424 | up to the detail step, the only navigation is to the dashboard |
| Navigation.DashboardFailure | zap_keepalive.py:396-398 | a failed dashboard challenge ends the visit with failure, after only mouse events |
| Navigation.FollowUpsIgnored | zap_keepalive.py:423-447 | the outcome of the later challenges never decides the result |
| Navigation.NavigatesOnlyToDetail | zap_keepalive.py:392-443 | with no qualifying anchor the visit navigates only to the dashboard; once the dashboard is clear and a qualifying anchor exists, every navigation goes to the dashboard or to the first qualifying link, and that link is visited exactly once |
| Navigation.VisitPageOnly | zap_keepalive.py:389-465 | a visit never loads or saves the session and never closes the browser |
| Keeper.NeedLoginRedundant | zap_keepalive.py:541 | `need_login` holds exactly when the lower-cased URL contains `login` or the URL lacks `customer`; the `#login` test adds nothing |
| Keeper.SolverFor | zap_keepalive.py:192 | a solver exists exactly when the API key is non-empty |
| Keeper.Refresh | zap_keepalive.py:477-479 | the stay reloads the page, then runs only the challenge |
| Keeper.Sequence | zap_keepalive.py:543-567 | a pass succeeds exactly when the needed login, if any, succeeded and the visit did; every path ends by closing the browser |
| Keeper.Run | zap_keepalive.py:503-567 | the store changes only by saving the account's cookies, and only on success; the last action closes the browser |
| Keeper.RunVerdict | zap_keepalive.py:541-567 | `run()` returns true exactly when (no login is needed or the login succeeds) and the visit succeeds |
| Keeper.SequenceClosesOnce | zap_keepalive.py:543-567 | whatever the steps did, the browser is closed exactly once, and the session is saved exactly when the pass succeeds |
| Keeper.RunClosesOnce | zap_keepalive.py:503-567 | `run()` closes the browser exactly once, as its last action, and saves the session exactly when it returns true |
| Keeper.CheckChallengeIgnored | zap_keepalive.py:534-537 | the result of the first dashboard challenge never changes the verdict or the store |
| Keeper.NoLoginWhenSessionValid | zap_keepalive.py:541-550 | when no login is needed, nothing about the login page affects the pass |
| Batch.AccountsFromLastLine | zap_keepalive.py:49-56 | the accounts are parsed from the last `ACCOUNTS` line of the file, and there are none when no line sets it |
| Batch.Loop | zap_keepalive.py:595-600 | one report per account, in order, under that account's email |
| Batch.RunAll | zap_keepalive.py:595-600 | the loop of `main` reports every account under its email, in order |
| Batch.RunPassSaves | zap_keepalive.py:553-567 | a pass saves the account's session exactly when it succeeds and otherwise leaves the files alone |
| Batch.LoopKeeps | zap_keepalive.py:595-600 | with such a pass, every file that no successful account is named after is as it was before the loop |
| Batch.OnlySuccessesSave | zap_keepalive.py:595-600 | only successful accounts write session files; every other file is as it was before the batch |
| Batch.ReportIsRun | zap_keepalive.py:596-600 | report `i` is the verdict of account `i`'s own `run()`, against the session files the accounts before it left |
| Batch.SuccessCount | zap_keepalive.py:607 | the success count never exceeds the number of reports |
| Batch.SuccessCountAppend | zap_keepalive.py:607 | the count adds up over concatenated reports, and a single report counts 1 when it succeeded and 0 otherwise |
| Batch.SuccessCountBounds | zap_keepalive.py:607 | the count equals the number of reports exactly when all succeeded, and is zero exactly when none did |
| Batch.VerdictMeaning | zap_keepalive.py:622-630 | for a non-empty batch the title is "success" when all succeeded, "failure" when none did, and "partial" otherwise |
| Batch.Decimal | zap_keepalive.py:637 | a count is written as decimal digits without a leading zero |
| Batch.DecimalValue | zap_keepalive.py:637 | reading the digits back gives the count |
| Batch.MessageLines | zap_keepalive.py:632-640 | the message has `len(results) + 5` lines: the verdict's emoji and title, a blank line, one status line per account in order, a blank line, the `success_count/len(results)` result line and the time line |
| Batch.Main | zap_keepalive.py:570-649 | no accounts exit with 1; otherwise the reports and session files are those of running every account in order, the exit status is 0 exactly when every account succeeded, and a message, built from those reports, exists exactly when Telegram is configured |
| Batch.MainExit | zap_keepalive.py:596-649 | the exit status is 0 exactly when there are accounts and each account's own `run()`, against the session files the accounts before it left, returned true |

## Behaviour worth noting

- The session file name is not one-to-one. `a.b@x` and `a_b@x` share a file,
  and so do `a@b` and `a_at_b`. `Sessions.NotInjective` and
  `Sessions.SessionShared` state this.
- The session is saved only when `run()` succeeds.
- The login submits first, then runs the CAPTCHA step, then confirms in the
  modal (`LoginFlow.LoginConfirmed`).
- `visit_vps_detail` does not retry after collecting the links. It navigates
  at most once, to the first qualifying link.
- One account's unexpected browser error stops the whole batch. Only the
  failures the script catches become a `False` for that account.

## Left out

- Playwright, CDP and `asyncio`: page loads, waits and sleeps, real concurrency, and the browser launch options. They become observation traces and `Action`s.
- HTTP transport to YesCaptcha and Telegram. A reply that cannot be fetched or decoded is a single `TransportFailed` / `CreateUnreachable` case. `TelegramNotifier.send` is left out; only the message is built.
- File I/O and JSON in `save_session` and `load_session`. A file either holds the saved cookie list or does not load (`Unreadable`). Creating the session directory is left out.
- Reading the `.env` file. The model starts from its lines. The `exit(1)` for a missing file is left out, and so is how the file is cut into lines.
- `STAY_DURATION` and its `int()` conversion. A numeric value only sets the countdown length. A non-numeric value makes `int()` raise `ValueError` when the module is loaded, before any account runs; the model does not cover that.
- `close_modals`: its clicks and the Escape key are best-effort side effects with no result.
- The ONLINE/OFFLINE text probe, which only logs.
- `Logger`, `print` and the countdown display.
- The click coordinates computed from the wrapper's bounding box, which are floating point. `time.time()` readings are given as whole seconds in the poll trace.
- Exceptions raised by Playwright outside the `try` blocks the script has, for example a failing `page.goto` (lines 256, 392, 441, 530) or the login-link click (line 283). `main` does not guard `await keeper.run()` (line 599), so such an exception ends the whole batch. The remaining accounts do not run, and no summary or Telegram message is produced. Python prints a traceback and exits with a non-zero status, and `browser.close()` is skipped. The model assumes these exceptions do not happen: `Batch.Loop` always runs every account.
- An error while injecting the token with `page.evaluate`. The script catches it like a solver error; the model injects whenever solving succeeds.
- Text.Lower: lower-cases ASCII letters only, because Python's full Unicode `lower()` table is out of scope. This is used for `need_login` and the placeholder test.
- Captcha.CreateTask: takes `errorId` as a whole number or missing. The JSON values `false` and `0.0`, which also compare equal to 0 in Python, are not modelled.
- Captcha.Decide: takes the `solution` field as missing, `null`, or an object with an optional token. Other JSON shapes, for which `.get` would raise, are not modelled.
