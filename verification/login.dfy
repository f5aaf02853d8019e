/** `ZapKeepAlive.login`: open the login page, get past the challenge, open
    the login dialog, fill the email and password fields, submit, inject a
    reCAPTCHA token when a solver is configured, confirm in the modal, and
    judge success by the final URL. The page is given as one snapshot per
    point where the script queries it, after the clicks and fills that
    precede that point; an action names an element by its position in the
    snapshot it was found in. */
module LoginFlow {
  import opened Results
  import opened Text
  import opened Browser
  import opened Challenge
  import opened Captcha

  /** The selectors tried, in order, for the email field; the first one
      whose first match is visible wins. */
  const EmailChain: seq<Selector> := [EMailPlaceholder, LowerEMailPlaceholder, UsernamePlaceholder, ModalTextInput]
  /** The selectors tried, in order, for the submit control; the first one
      with any visible match wins. */
  const SubmitChain: seq<Selector> := [LoginButton, LogInButton, SubmitInput]
  /** The links that open the login dialog, tried in order by first match. */
  const LoginLinkChain: seq<Selector> := [LogInBangText, AlreadyRegisteredText, LogInAnchor]

  /** What the script sees during one login. */
  datatype LoginScene = LoginScene(
    challenge: seq<Attempt>,  // the tries of the challenge on the login page
    entry: Page,              // the login page once the challenge is passed, searched for "Accept all"
    links: Page,              // the page after the cookie step, searched for the login link
    form: Page,               // the page once the dialog is open, searched for the email field
    passwords: Page,          // the page once the email is filled, searched for the password field
    submit: Page,             // the page once the password is filled, searched for the submit control
    confirm: Page,            // the page after submitting and the CAPTCHA step
    finalUrl: string)         // `page.url` after the confirmation wait

  /** The replies the CAPTCHA service gives for one solve. */
  datatype CaptchaTrace = CaptchaTrace(create: CreateReply, polls: seq<Poll>)

  /** How far the login got. */
  datatype Stage = ChallengeFailed | NoEmailField | NoPasswordField | Confirmed

  datatype LoginOutcome = LoginOutcome(ok: bool, reached: Stage, actions: seq<Action>)

  /** The `placeholder` attribute, `''` when it is missing. */
  function PlaceholderText(e: Element): string {
    match e.placeholder
    case None => ""
    case Some(p) => p
  }

  /** An input the fallback search accepts as the email field. */
  predicate FallbackCandidate(e: Element) {
    TextOrEmailInput in e.matches && e.visible && !Contains(Lower(PlaceholderText(e)), "search")
  }

  /** The first visible text or email input whose placeholder does not
      mention "search", ignoring case. */
  function Fallback(page: Page): (r: Option<nat>)
    ensures r.None? <==> forall i :: 0 <= i < |page| ==> !FallbackCandidate(page[i])
    ensures r.Some? ==> r.value < |page| && FallbackCandidate(page[r.value])
    ensures r.Some? ==> forall i :: 0 <= i < r.value ==> !FallbackCandidate(page[i])
  {
    if |page| == 0 then None
    else if FallbackCandidate(page[0]) then Some(0)
    else
      match Fallback(page[1..])
      case None => None
      case Some(i) => Some(i + 1)
  }

  /** The email field: the chain's pick, else the fallback's. */
  function EmailField(page: Page): (r: Option<nat>)
    ensures ChainHit(page, EmailChain, FirstIfVisible).Some? ==> r == ChainHit(page, EmailChain, FirstIfVisible)
    ensures ChainHit(page, EmailChain, FirstIfVisible).None? ==> r == Fallback(page)
    ensures r.Some? ==> r.value < |page| && page[r.value].visible
  {
    match ChainHit(page, EmailChain, FirstIfVisible)
    case Some(i) => Some(i)
    case None => Fallback(page)
  }

  /** The password field: the first visible password input. */
  function PasswordField(page: Page): (r: Option<nat>)
    ensures r.None? <==> forall i :: 0 <= i < |page| ==> !(PasswordInput in page[i].matches && page[i].visible)
    ensures r.Some? ==> r.value < |page| && PasswordInput in page[r.value].matches && page[r.value].visible
    ensures r.Some? ==> forall i :: 0 <= i < r.value ==> !(PasswordInput in page[i].matches && page[i].visible)
  {
    FirstVisible(page, PasswordInput)
  }

  /** Submitting: click the chain's control, or press Enter in the password
      field when no selector has a visible match. */
  function SubmitAction(page: Page, password: nat): (a: Action)
    ensures a.Click? <==> ChainHit(page, SubmitChain, AnyVisible).Some?
    ensures a.Click? ==> a == Click(ChainHit(page, SubmitChain, AnyVisible).value)
    ensures !a.Click? ==> a == PressEnter(password)
    ensures InPage(a) && !a.InjectToken?
  {
    match ChainHit(page, SubmitChain, AnyVisible)
    case Some(b) => Click(b)
    case None => PressEnter(password)
  }

  /** The CAPTCHA step: with a solver, the token is injected when solving
      succeeds and only a warning is logged when it raises; without one the
      step is skipped. */
  function CaptchaActions(solver: Option<CaptchaTrace>): (r: seq<Action>)
    ensures |r| <= 1
    ensures forall i :: 0 <= i < |r| ==> r[i].InjectToken?
    ensures |r| == 1 <==> solver.Some? && Solve(solver.value.create, solver.value.polls).Ok?
    ensures |r| == 1 ==> r[0] == InjectToken(Solve(solver.value.create, solver.value.polls).value)
  {
    match solver
    case None => []
    case Some(t) =>
      match Solve(t.create, t.polls)
      case Ok(token) => [InjectToken(token)]
      case Err(_) => []
  }

  /** Confirming: click the modal's button when its first match is visible,
      else press Enter on the page. */
  function ConfirmAction(page: Page): (a: Action)
    ensures a.Click? <==> VisibleHit(page, QueryFirst(page, ModalConfirmButton))
    ensures a.Click? ==> a == Click(QueryFirst(page, ModalConfirmButton).value)
    ensures !a.Click? ==> a == PressEnterOnPage
  {
    var hit := QueryFirst(page, ModalConfirmButton);
    if VisibleHit(page, hit) then Click(hit.value) else PressEnterOnPage
  }

  /** Accepting cookies when the button exists on `entry`, then opening the
      login dialog when a link exists on `links`, the page after that. */
  function OpenDialog(entry: Page, links: Page): (r: seq<Action>)
    ensures |r| == (if QueryFirst(entry, AcceptAllButton).Some? then 1 else 0)
                   + (if ChainHit(links, LoginLinkChain, FirstMatch).Some? then 1 else 0)
    ensures QueryFirst(entry, AcceptAllButton).Some? ==> r[0] == Click(QueryFirst(entry, AcceptAllButton).value)
    ensures ChainHit(links, LoginLinkChain, FirstMatch).Some? ==>
              r[|r| - 1] == Click(ChainHit(links, LoginLinkChain, FirstMatch).value)
    ensures forall i :: 0 <= i < |r| ==> r[i].Click?
    ensures Preliminary(r) && NoTokens(r) && PageOnly(r)
  {
    var cookies := ClickIfFound(QueryFirst(entry, AcceptAllButton));
    var link := ClickIfFound(ChainHit(links, LoginLinkChain, FirstMatch));
    assert forall i :: 0 <= i < |cookies + link| ==> (cookies + link)[i].Click? by {
      forall i | 0 <= i < |cookies + link| ensures (cookies + link)[i].Click? {
        if i >= |cookies| { assert (cookies + link)[i] == link[i - |cookies|]; }
      }
    }
    cookies + link
  }

  /** Only navigation, mouse events and clicks: nothing is filled,
      submitted, injected or confirmed by keyboard. */
  predicate Preliminary(actions: seq<Action>) {
    forall i :: 0 <= i < |actions| ==> actions[i].Goto? || actions[i].Pointer? || actions[i].Click?
  }

  lemma PreliminaryAppend(x: seq<Action>, y: seq<Action>)
    requires Preliminary(x) && Preliminary(y)
    ensures Preliminary(x + y)
  {
    forall i | 0 <= i < |x + y| ensures (x + y)[i].Goto? || (x + y)[i].Pointer? || (x + y)[i].Click? {
      if i >= |x| { assert (x + y)[i] == y[i - |x|]; }
    }
  }

  /** The navigation and challenge that start every login. */
  function Prelude(scene: LoginScene): (r: seq<Action>)
    ensures |r| >= 1 && r[0] == Goto(LoginUrl)
    ensures forall i :: 1 <= i < |r| ==> r[i].Pointer?
    ensures Preliminary(r) && NoTokens(r) && PageOnly(r)
  {
    [Goto(LoginUrl)] + Clicks(scene.challenge, DefaultAttempts)
  }

  /** The actions up to and including the submission, once both fields are
      found; none of them injects a token. */
  function Submitted(email: string, password: string, scene: LoginScene, e: nat, p: nat): seq<Action> {
    Prelude(scene) + OpenDialog(scene.entry, scene.links) + Fields(email, password, scene.submit, e, p)
  }

  /** Filling both fields, then submitting. */
  function Fields(email: string, password: string, submitPage: Page, e: nat, p: nat): (r: seq<Action>)
    ensures NoTokens(r) && PageOnly(r)
  {
    var typed := [Click(e), Fill(e, email), Click(p), Fill(p, password)];
    var submit := [SubmitAction(submitPage, p)];
    NoTokensAppend(typed, submit);
    PageOnlyAppend(typed, submit);
    typed + submit
  }

  lemma SubmittedPlain(email: string, password: string, scene: LoginScene, e: nat, p: nat)
    ensures NoTokens(Submitted(email, password, scene, e, p)) && PageOnly(Submitted(email, password, scene, e, p))
  {
    PlainParts(Prelude(scene), OpenDialog(scene.entry, scene.links), Fields(email, password, scene.submit, e, p));
  }

  lemma PlainParts(x: seq<Action>, y: seq<Action>, z: seq<Action>)
    requires NoTokens(x) && PageOnly(x) && NoTokens(y) && PageOnly(y) && NoTokens(z) && PageOnly(z)
    ensures NoTokens(x + y + z) && PageOnly(x + y + z)
  {
    NoTokensAppend(x, y);
    NoTokensAppend(x + y, z);
    PageOnlyAppend(x, y);
    PageOnlyAppend(x + y, z);
  }

  /** No action injects a token. */
  predicate NoTokens(actions: seq<Action>) {
    forall i :: 0 <= i < |actions| ==> !actions[i].InjectToken?
  }

  lemma NoTokensAppend(x: seq<Action>, y: seq<Action>)
    requires NoTokens(x) && NoTokens(y)
    ensures NoTokens(x + y)
  {
    forall i | 0 <= i < |x + y| ensures !(x + y)[i].InjectToken? {
      if i >= |x| { assert (x + y)[i] == y[i - |x|]; }
    }
  }

  /** `login()`. */
  function Login(email: string, password: string, solver: Option<CaptchaTrace>, scene: LoginScene): (o: LoginOutcome)
    ensures o.reached == ChallengeFailed <==> !Clear(scene.challenge, DefaultAttempts).cleared
    ensures o.reached == NoEmailField <==>
              Clear(scene.challenge, DefaultAttempts).cleared && EmailField(scene.form).None?
    ensures o.reached == NoPasswordField <==>
              Clear(scene.challenge, DefaultAttempts).cleared && EmailField(scene.form).Some?
              && PasswordField(scene.passwords).None?
    ensures o.ok <==> o.reached == Confirmed && Contains(scene.finalUrl, "customer")
    ensures |o.actions| >= 1 && o.actions[0] == Goto(LoginUrl)
  {
    var pre := Prelude(scene);
    if !Clear(scene.challenge, DefaultAttempts).cleared then LoginOutcome(false, ChallengeFailed, pre)
    else
      var dialogOpen := pre + OpenDialog(scene.entry, scene.links);
      match EmailField(scene.form)
      case None => LoginOutcome(false, NoEmailField, dialogOpen)
      case Some(e) =>
        var withEmail := dialogOpen + [Click(e), Fill(e, email)];
        match PasswordField(scene.passwords)
        case None => LoginOutcome(false, NoPasswordField, withEmail)
        case Some(p) =>
          var confirmed := Submitted(email, password, scene, e, p) + CaptchaActions(solver) + [ConfirmAction(scene.confirm)];
          LoginOutcome(Contains(scene.finalUrl, "customer"), Confirmed, confirmed)
  }

  /** The actions other than token injections. */
  function WithoutTokens(actions: seq<Action>): (r: seq<Action>)
    ensures |r| <= |actions|
    ensures NoTokens(r)
    ensures NoTokens(actions) ==> r == actions
  {
    if |actions| == 0 then []
    else if actions[0].InjectToken? then WithoutTokens(actions[1..])
    else
      var rest := WithoutTokens(actions[1..]);
      NoTokensAppend([actions[0]], rest);
      [actions[0]] + rest
  }

  lemma {:induction false} WithoutTokensAppend(x: seq<Action>, y: seq<Action>)
    ensures WithoutTokens(x + y) == WithoutTokens(x) + WithoutTokens(y)
  {
    if |x| == 0 {
      assert x + y == y;
    } else {
      assert (x + y)[1..] == x[1..] + y;
      WithoutTokensAppend(x[1..], y);
    }
  }

  /** The login stops at the first missing step, before any later one: a
      failed challenge leaves only the navigation and the mouse events, a
      missing email field fills nothing, and a missing password field fills
      only the email. Nothing is submitted, injected or confirmed. */
  lemma ShortCircuit(email: string, password: string, solver: Option<CaptchaTrace>, scene: LoginScene)
    ensures var o := Login(email, password, solver, scene);
            o.reached == ChallengeFailed ==> o.actions == Prelude(scene)
    ensures var o := Login(email, password, solver, scene);
            o.reached == NoEmailField ==> Preliminary(o.actions)
    ensures var o := Login(email, password, solver, scene);
            o.reached == NoPasswordField ==>
              |o.actions| >= 1 && Preliminary(o.actions[..|o.actions| - 1])
              && o.actions[|o.actions| - 1] == Fill(EmailField(scene.form).value, email)
    ensures var o := Login(email, password, solver, scene);
            o.reached != Confirmed ==> !o.ok
  {
    var o := Login(email, password, solver, scene);
    if o.reached == NoEmailField {
      NoEmailStops(email, password, solver, scene);
    } else if o.reached == NoPasswordField {
      NoPasswordStops(email, password, solver, scene);
    }
  }

  lemma NoEmailStops(email: string, password: string, solver: Option<CaptchaTrace>, scene: LoginScene)
    requires Login(email, password, solver, scene).reached == NoEmailField
    ensures Preliminary(Login(email, password, solver, scene).actions)
  {
    StoppedActions(email, password, solver, scene);
    PreliminaryAppend(Prelude(scene), OpenDialog(scene.entry, scene.links));
  }

  lemma NoPasswordStops(email: string, password: string, solver: Option<CaptchaTrace>, scene: LoginScene)
    requires Login(email, password, solver, scene).reached == NoPasswordField
    ensures var o := Login(email, password, solver, scene);
            |o.actions| >= 1 && Preliminary(o.actions[..|o.actions| - 1])
            && o.actions[|o.actions| - 1] == Fill(EmailField(scene.form).value, email)
    ensures PageOnly(Login(email, password, solver, scene).actions)
  {
    StoppedActions(email, password, solver, scene);
    var head := Prelude(scene) + OpenDialog(scene.entry, scene.links);
    PreliminaryAppend(Prelude(scene), OpenDialog(scene.entry, scene.links));
    EmailFilled(head, EmailField(scene.form).value, email);
  }

  /** The actions of a login that stops early, stage by stage. */
  lemma StoppedActions(email: string, password: string, solver: Option<CaptchaTrace>, scene: LoginScene)
    ensures var o := Login(email, password, solver, scene);
            o.reached == NoEmailField ==> o.actions == Prelude(scene) + OpenDialog(scene.entry, scene.links)
    ensures var o := Login(email, password, solver, scene);
            o.reached == NoPasswordField ==>
              var e := EmailField(scene.form).value;
              o.actions == Prelude(scene) + OpenDialog(scene.entry, scene.links) + [Click(e), Fill(e, email)]
  {
  }

  lemma EmailFilled(head: seq<Action>, e: nat, email: string)
    requires Preliminary(head)
    ensures var all := head + [Click(e), Fill(e, email)];
            Preliminary(all[..|all| - 1]) && all[|all| - 1] == Fill(e, email)
    ensures PageOnly(head + [Click(e), Fill(e, email)])
  {
    var all := head + [Click(e), Fill(e, email)];
    assert all[..|all| - 1] == head + [Click(e)];
    PreliminaryAppend(head, [Click(e)]);
    StoppedPlain(all);
  }

  /** The actions of a login that got through both fields, in order: the
      email field is clicked and filled, the password field is clicked and
      filled, the form is submitted, the solved token is injected when there
      is one, and the modal is confirmed. */
  predicate ConfirmedInOrder(a: seq<Action>, email: string, password: string, solver: Option<CaptchaTrace>, scene: LoginScene) {
    && EmailField(scene.form).Some? && PasswordField(scene.passwords).Some?
    && InOrder(a, EmailField(scene.form).value, PasswordField(scene.passwords).value, email, password,
               SubmitAction(scene.submit, PasswordField(scene.passwords).value),
               if solver.Some? && Solve(solver.value.create, solver.value.polls).Ok?
               then [InjectToken(Solve(solver.value.create, solver.value.polls).value)] else [],
               ConfirmAction(scene.confirm))
  }

  /** `a` ends with clicking and filling field `e`, clicking and filling
      field `p`, `submit`, the `tokens`, and `last`; everything before is
      navigation, mouse events and clicks. */
  predicate InOrder(a: seq<Action>, e: nat, p: nat, email: string, password: string,
                    submit: Action, tokens: seq<Action>, last: Action) {
    var t := |tokens|;
    && t <= 1
    && |a| >= 7 + t
    && a[|a| - 1] == last
    && (t == 1 ==> a[|a| - 2] == tokens[0])
    && a[|a| - 2 - t] == submit
    && a[|a| - 3 - t] == Fill(p, password)
    && a[|a| - 4 - t] == Click(p)
    && a[|a| - 5 - t] == Fill(e, email)
    && a[|a| - 6 - t] == Click(e)
    && Preliminary(a[..|a| - 6 - t])
  }

  /** Once both fields are found, the script submits, then runs the CAPTCHA
      step, then confirms. */
  lemma LoginConfirmed(email: string, password: string, solver: Option<CaptchaTrace>, scene: LoginScene)
    requires Login(email, password, solver, scene).reached == Confirmed
    ensures ConfirmedInOrder(Login(email, password, solver, scene).actions, email, password, solver, scene)
  {
    ConfirmedActions(email, password, solver, scene);
    ConfirmedOrder(Login(email, password, solver, scene).actions, email, password, solver, scene,
                   EmailField(scene.form).value, PasswordField(scene.passwords).value);
  }

  lemma ConfirmedOrder(a: seq<Action>, email: string, password: string, solver: Option<CaptchaTrace>, scene: LoginScene, e: nat, p: nat)
    requires EmailField(scene.form) == Some(e) && PasswordField(scene.passwords) == Some(p)
    requires a == Submitted(email, password, scene, e, p) + CaptchaActions(solver) + [ConfirmAction(scene.confirm)]
    ensures ConfirmedInOrder(a, email, password, solver, scene)
  {
    var head := Prelude(scene) + OpenDialog(scene.entry, scene.links);
    SubmittedSplit(email, password, scene, e, p);
    CaptchaShape(solver);
    Layout(a, head, e, p, email, password, SubmitAction(scene.submit, p), CaptchaActions(solver), ConfirmAction(scene.confirm));
  }

  lemma SubmittedSplit(email: string, password: string, scene: LoginScene, e: nat, p: nat)
    ensures var head := Prelude(scene) + OpenDialog(scene.entry, scene.links);
            && Submitted(email, password, scene, e, p)
               == head + [Click(e), Fill(e, email), Click(p), Fill(p, password), SubmitAction(scene.submit, p)]
            && Preliminary(head) && |head| >= 1
  {
    PreliminaryAppend(Prelude(scene), OpenDialog(scene.entry, scene.links));
  }

  lemma CaptchaShape(solver: Option<CaptchaTrace>)
    ensures CaptchaActions(solver)
            == if solver.Some? && Solve(solver.value.create, solver.value.polls).Ok?
               then [InjectToken(Solve(solver.value.create, solver.value.polls).value)] else []
  {
  }

  /** Where the parts of a confirmed login sit in its actions. */
  lemma Layout(a: seq<Action>, head: seq<Action>, e: nat, p: nat, email: string, password: string,
               submit: Action, tokens: seq<Action>, last: Action)
    requires |tokens| <= 1 && Preliminary(head) && |head| >= 1
    requires a == head + [Click(e), Fill(e, email), Click(p), Fill(p, password), submit] + tokens + [last]
    ensures InOrder(a, e, p, email, password, submit, tokens, last)
  {
    assert a[..|a| - 6 - |tokens|] == head;
  }

  /** The actions of a login that got through both fields. */
  lemma ConfirmedActions(email: string, password: string, solver: Option<CaptchaTrace>, scene: LoginScene)
    requires Login(email, password, solver, scene).reached == Confirmed
    ensures Login(email, password, solver, scene).actions
            == Submitted(email, password, scene, EmailField(scene.form).value, PasswordField(scene.passwords).value)
               + CaptchaActions(solver) + [ConfirmAction(scene.confirm)]
  {
  }

  /** The submission ends by filling the email, then the password, then
      submitting from the password field or the submit control. */
  lemma SubmittedEnds(email: string, password: string, scene: LoginScene, e: nat, p: nat)
    ensures var s := Submitted(email, password, scene, e, p);
            && |s| >= 6
            && s[|s| - 1] == SubmitAction(scene.submit, p)
            && s[|s| - 2] == Fill(p, password)
            && s[|s| - 3] == Click(p)
            && s[|s| - 4] == Fill(e, email)
            && s[|s| - 5] == Click(e)
  {
    EndsWithFields(Prelude(scene) + OpenDialog(scene.entry, scene.links), email, password, scene.submit, e, p);
  }

  lemma EndsWithFields(head: seq<Action>, email: string, password: string, submitPage: Page, e: nat, p: nat)
    ensures var s := head + Fields(email, password, submitPage, e, p);
            && |s| >= 5
            && s[|s| - 1] == SubmitAction(submitPage, p)
            && s[|s| - 2] == Fill(p, password)
            && s[|s| - 3] == Click(p)
            && s[|s| - 4] == Fill(e, email)
            && s[|s| - 5] == Click(e)
  {
  }

  /** The CAPTCHA step never changes control flow: whatever the service
      replies, or whether a solver is configured at all, the login reaches
      the same stage with the same result and the same actions, except for
      the injected token. */
  lemma CaptchaIrrelevant(email: string, password: string, s1: Option<CaptchaTrace>, s2: Option<CaptchaTrace>, scene: LoginScene)
    ensures Login(email, password, s1, scene).ok == Login(email, password, s2, scene).ok
    ensures Login(email, password, s1, scene).reached == Login(email, password, s2, scene).reached
    ensures WithoutTokens(Login(email, password, s1, scene).actions) == WithoutTokens(Login(email, password, s2, scene).actions)
  {
    if Login(email, password, s1, scene).reached == Confirmed {
      var submitted := Submitted(email, password, scene, EmailField(scene.form).value, PasswordField(scene.passwords).value);
      var last := [ConfirmAction(scene.confirm)];
      SubmittedPlain(email, password, scene, EmailField(scene.form).value, PasswordField(scene.passwords).value);
      TokensDropped(submitted, CaptchaActions(s1), last);
      TokensDropped(submitted, CaptchaActions(s2), last);
    }
  }

  lemma TokensDropped(submitted: seq<Action>, tokens: seq<Action>, last: seq<Action>)
    requires NoTokens(submitted) && NoTokens(last)
    requires |tokens| <= 1 && forall i :: 0 <= i < |tokens| ==> tokens[i].InjectToken?
    ensures WithoutTokens(submitted + tokens + last) == submitted + last
  {
    WithoutTokensAppend(submitted + tokens, last);
    WithoutTokensAppend(submitted, tokens);
    OnlyTokens(tokens);
    assert submitted + [] == submitted;
  }

  /** Token injections alone leave nothing. */
  lemma OnlyTokens(tokens: seq<Action>)
    requires |tokens| <= 1 && forall i :: 0 <= i < |tokens| ==> tokens[i].InjectToken?
    ensures WithoutTokens(tokens) == []
  {
    if |tokens| == 1 {
      assert WithoutTokens(tokens) == WithoutTokens(tokens[1..]);
    }
  }

  /** An email field is found exactly when some chain selector's first
      match is visible or some input passes the fallback test. */
  lemma EmailFieldFound(page: Page)
    ensures EmailField(page).Some? <==>
              (exists j :: 0 <= j < |EmailChain| && VisibleHit(page, QueryFirst(page, EmailChain[j])))
              || (exists i :: 0 <= i < |page| && FallbackCandidate(page[i]))
  {
    ChainHitFirst(page, EmailChain, FirstIfVisible);
    if ChainHit(page, EmailChain, FirstIfVisible).None? {
      forall j | 0 <= j < |EmailChain| ensures !VisibleHit(page, QueryFirst(page, EmailChain[j])) {
        assert Try(page, EmailChain[j], FirstIfVisible).None?;
      }
    } else {
      var j :| 0 <= j < |EmailChain| && ChainHit(page, EmailChain, FirstIfVisible) == Try(page, EmailChain[j], FirstIfVisible)
               && forall j' :: 0 <= j' < j ==> Try(page, EmailChain[j'], FirstIfVisible).None?;
      assert VisibleHit(page, QueryFirst(page, EmailChain[j]));
    }
  }


  /** A login only acts on the page: it never loads or saves the session
      and never closes the browser. */
  lemma LoginPageOnly(email: string, password: string, solver: Option<CaptchaTrace>, scene: LoginScene)
    ensures PageOnly(Login(email, password, solver, scene).actions)
  {
    if Login(email, password, solver, scene).reached == Confirmed {
      ConfirmedPageOnly(email, password, solver, scene);
    } else {
      StoppedPageOnly(email, password, solver, scene);
    }
  }

  lemma ConfirmedPageOnly(email: string, password: string, solver: Option<CaptchaTrace>, scene: LoginScene)
    requires Login(email, password, solver, scene).reached == Confirmed
    ensures PageOnly(Login(email, password, solver, scene).actions)
  {
    ConfirmedActions(email, password, solver, scene);
    SubmittedThenConfirmed(email, password, solver, scene, EmailField(scene.form).value, PasswordField(scene.passwords).value);
  }

  lemma SubmittedThenConfirmed(email: string, password: string, solver: Option<CaptchaTrace>, scene: LoginScene, e: nat, p: nat)
    ensures PageOnly(Submitted(email, password, scene, e, p) + CaptchaActions(solver) + [ConfirmAction(scene.confirm)])
  {
    SubmittedPlain(email, password, scene, e, p);
    ConfirmedPlain(Submitted(email, password, scene, e, p), CaptchaActions(solver), ConfirmAction(scene.confirm));
  }

  lemma StoppedPageOnly(email: string, password: string, solver: Option<CaptchaTrace>, scene: LoginScene)
    requires Login(email, password, solver, scene).reached != Confirmed
    ensures PageOnly(Login(email, password, solver, scene).actions)
  {
    var o := Login(email, password, solver, scene);
    if o.reached == NoPasswordField {
      NoPasswordStops(email, password, solver, scene);
    } else if o.reached == NoEmailField {
      NoEmailStops(email, password, solver, scene);
      PreliminaryPlain(o.actions);
    }
  }

  lemma ConfirmedPlain(sub: seq<Action>, c: seq<Action>, last: Action)
    requires PageOnly(sub) && forall i :: 0 <= i < |c| ==> c[i].InjectToken?
    requires last.Click? || last == PressEnterOnPage
    ensures PageOnly(sub + c + [last])
  {
    assert PageOnly(c) && PageOnly([last]);
    PageOnlyAppend(sub, c);
    PageOnlyAppend(sub + c, [last]);
  }

  lemma PreliminaryPlain(actions: seq<Action>)
    requires Preliminary(actions)
    ensures PageOnly(actions)
  {
  }

  lemma StoppedPlain(actions: seq<Action>)
    requires |actions| >= 1 && Preliminary(actions[..|actions| - 1]) && actions[|actions| - 1].Fill?
    ensures PageOnly(actions)
  {
    var n := |actions|;
    assert actions == actions[..n - 1] + [actions[n - 1]];
    PageOnlyAppend(actions[..n - 1], [actions[n - 1]]);
  }
}
