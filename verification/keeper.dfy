/** `ZapKeepAlive.run`: one account's pass. Load the saved session, open the
    dashboard and run the challenge there, log in when the URL says so,
    visit the VPS detail page, and on success stay, reload and save the
    session. The browser is closed on every return. */
module Keeper {
  import opened Results
  import opened Text
  import opened Sessions
  import opened Browser
  import opened Challenge
  import opened LoginFlow
  import opened Navigation

  /** What the script sees during one account's pass. */
  datatype RunScene = RunScene(
    check: seq<Attempt>,      // the tries of the challenge on the first dashboard visit
    checkUrl: string,         // `page.url` after it
    login: LoginScene,
    captcha: CaptchaTrace,    // the CAPTCHA service's replies, used when a key is set
    visit: VisitScene,
    refresh: seq<Attempt>,    // the tries of the challenge after the reload
    jar: seq<Cookie>)         // `context.cookies()` when the session is saved

  /** `need_login`, as written: the lower-cased URL mentions `login`, or the
      URL mentions `#login`, or it does not mention `customer`. */
  predicate NeedLogin(url: string) {
    Contains(Lower(url), "login") || Contains(url, "#login") || !Contains(url, "customer")
  }

  /** The `#login` test adds nothing: a URL containing `#login` contains
      `login`, and so does its lower-cased form. */
  lemma NeedLoginRedundant(url: string)
    ensures NeedLogin(url) <==> Contains(Lower(url), "login") || !Contains(url, "customer")
  {
    if Contains(url, "#login") {
      assert "#login" == "#" + "login";
      ContainsSuffix(url, "#", "login");
      ContainsLower(url, "login");
      assert Lower("login") == "login";
    }
  }

  /** The solver `ZapKeepAlive` builds: present exactly when the API key is
      non-empty. */
  function SolverFor(apiKey: string, scene: RunScene): (s: Option<CaptchaTrace>)
    ensures s.Some? <==> apiKey != ""
  {
    if apiKey != "" then Some(scene.captcha) else None
  }

  /** Loading the session, opening the dashboard and its challenge; the
      challenge's result is not consulted. */
  function Start(email: string, store: Store, scene: RunScene): seq<Action> {
    [LoadSession(Load(store, email).Some?), Goto(DashboardUrl)] + Clicks(scene.check, DefaultAttempts)
  }

  /** `stay_and_refresh`: reload and run the challenge again. */
  function Refresh(scene: RunScene): (r: seq<Action>)
    ensures |r| >= 1 && r[0] == Reload
    ensures forall i :: 1 <= i < |r| ==> r[i].Pointer?
    ensures PageOnly(r)
  {
    [Reload] + Clicks(scene.refresh, FollowUpAttempts)
  }

  /** The verdict and the browser actions of one pass. */
  datatype Pass = Pass(ok: bool, actions: seq<Action>)

  /** The control flow of `run()` over the results of its steps: a needed
      login that fails ends the pass; otherwise the visit decides, and only
      a successful visit is followed by the stay, the reload and the save.
      Every path ends by closing the browser. */
  function Sequence(start: seq<Action>, needLogin: bool, login: LoginOutcome, visit: VisitOutcome, refresh: seq<Action>): (p: Pass)
    ensures p.ok <==> (!needLogin || login.ok) && visit.ok
    ensures |p.actions| >= 1 && p.actions[|p.actions| - 1] == CloseBrowser
  {
    if needLogin && !login.ok then Pass(false, start + login.actions + [CloseBrowser])
    else
      var body := start + (if needLogin then login.actions else []);
      if !visit.ok then Pass(false, body + visit.actions + [CloseBrowser])
      else Pass(true, body + visit.actions + refresh + [SaveSession, CloseBrowser])
  }

  /** The result of one pass: its verdict, the browser actions and the
      session store afterwards. */
  datatype RunOutcome = RunOutcome(ok: bool, actions: seq<Action>, store: Store)

  /** `run()`. */
  function Run(email: string, password: string, apiKey: string, store: Store, scene: RunScene): (o: RunOutcome)
    ensures o.ok ==> o.store == Save(store, email, scene.jar)
    ensures !o.ok ==> o.store == store
    ensures |o.actions| >= 1 && o.actions[|o.actions| - 1] == CloseBrowser
  {
    var p := Sequence(Start(email, store, scene), NeedLogin(scene.checkUrl),
                      Login(email, password, SolverFor(apiKey, scene), scene.login),
                      Visit(scene.visit), Refresh(scene));
    RunOutcome(p.ok, p.actions, if p.ok then Save(store, email, scene.jar) else store)
  }

  /** A pass succeeds exactly when the login, if the URL called for one,
      succeeded and the visit did. */
  lemma RunVerdict(email: string, password: string, apiKey: string, store: Store, scene: RunScene)
    ensures Run(email, password, apiKey, store, scene).ok <==>
              (!NeedLogin(scene.checkUrl) || Login(email, password, SolverFor(apiKey, scene), scene.login).ok)
              && Visit(scene.visit).ok
  {
  }

  /** Neither closes the browser nor saves the session. */
  predicate Quiet(actions: seq<Action>) {
    CloseBrowser !in actions && SaveSession !in actions
  }

  lemma QuietAppend(x: seq<Action>, y: seq<Action>)
    requires Quiet(x) && Quiet(y)
    ensures Quiet(x + y)
  {
  }

  lemma PageQuiet(actions: seq<Action>)
    requires PageOnly(actions)
    ensures Quiet(actions)
  {
    PageOnlyNeverCloses(actions);
  }

  lemma StartQuiet(email: string, store: Store, scene: RunScene)
    ensures Quiet(Start(email, store, scene))
  {
    var p := Clicks(scene.check, DefaultAttempts);
    assert PageOnly(p);
    PageQuiet(p);
  }

  /** Ending with one close: a quiet prefix, then `tail`. */
  lemma ClosesOnceAfter(prefix: seq<Action>, tail: seq<Action>)
    requires Quiet(prefix)
    requires tail == [CloseBrowser] || tail == [SaveSession, CloseBrowser]
    ensures Count(prefix + tail, CloseBrowser) == 1
  {
    CountAppend(prefix, tail, CloseBrowser);
    if tail == [SaveSession, CloseBrowser] {
      assert Count(tail, CloseBrowser) == Count(tail[1..], CloseBrowser);
    }
  }

  /** Whatever the steps did, a pass whose steps only act on the page closes
      the browser once, as its last action, and saves the session exactly
      when it succeeds. */
  lemma SequenceClosesOnce(start: seq<Action>, needLogin: bool, login: LoginOutcome, visit: VisitOutcome, refresh: seq<Action>)
    requires Quiet(start) && PageOnly(login.actions) && PageOnly(visit.actions) && PageOnly(refresh)
    ensures Count(Sequence(start, needLogin, login, visit, refresh).actions, CloseBrowser) == 1
    ensures SaveSession in Sequence(start, needLogin, login, visit, refresh).actions <==> Sequence(start, needLogin, login, visit, refresh).ok
  {
    PageQuiet(login.actions);
    PageQuiet(visit.actions);
    PageQuiet(refresh);
    QuietAppend(start, login.actions);
    if needLogin && !login.ok {
      ClosesOnceAfter(start + login.actions, [CloseBrowser]);
    } else {
      var body := start + (if needLogin then login.actions else []);
      QuietAppend(body, visit.actions);
      if !visit.ok {
        ClosesOnceAfter(body + visit.actions, [CloseBrowser]);
      } else {
        QuietAppend(body + visit.actions, refresh);
        ClosesOnceAfter(body + visit.actions + refresh, [SaveSession, CloseBrowser]);
      }
    }
  }

  /** The browser is closed exactly once, as the last action, on every path,
      and the session is saved exactly on the successful one. */
  lemma RunClosesOnce(email: string, password: string, apiKey: string, store: Store, scene: RunScene)
    ensures Count(Run(email, password, apiKey, store, scene).actions, CloseBrowser) == 1
    ensures SaveSession in Run(email, password, apiKey, store, scene).actions <==> Run(email, password, apiKey, store, scene).ok
  {
    StartQuiet(email, store, scene);
    LoginPageOnly(email, password, SolverFor(apiKey, scene), scene.login);
    VisitPageOnly(scene.visit);
    SequenceClosesOnce(Start(email, store, scene), NeedLogin(scene.checkUrl),
                       Login(email, password, SolverFor(apiKey, scene), scene.login),
                       Visit(scene.visit), Refresh(scene));
  }

  /** The challenge on the first dashboard visit never decides anything: a
      different outcome there gives the same verdict and the same store. */
  lemma CheckChallengeIgnored(email: string, password: string, apiKey: string, store: Store, scene: RunScene, check: seq<Attempt>)
    ensures Run(email, password, apiKey, store, scene.(check := check)).ok == Run(email, password, apiKey, store, scene).ok
    ensures Run(email, password, apiKey, store, scene.(check := check)).store == Run(email, password, apiKey, store, scene).store
  {
  }

  /** A valid session skips the login entirely: nothing about the login
      page affects the pass. */
  lemma NoLoginWhenSessionValid(email: string, password: string, apiKey: string, store: Store, scene: RunScene, login: LoginScene)
    requires !NeedLogin(scene.checkUrl)
    ensures Run(email, password, apiKey, store, scene.(login := login)) == Run(email, password, apiKey, store, scene)
  {
  }
}
