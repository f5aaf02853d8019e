/** `ZapKeepAlive.visit_vps_detail`: open the dashboard, get past the
    challenge, click the "My VPS" entry when one is visible, collect the
    anchors whose `href` mentions `vserver`, go to the first of them that
    names a detail page (`/id/` or `/show/`), and report whether the final
    URL mentions `vserver`. */
module Navigation {
  import opened Results
  import opened Text
  import opened Browser
  import opened Challenge

  /** The selectors tried, in order, for the "My VPS" entry; the first one
      whose first match is visible is clicked. */
  const VpsChain: seq<Selector> := [MyVpsAnchor, VserverHrefAnchor, MyVpsText]
  /** The `max_attempts` of the challenge runs after the first one. */
  const FollowUpAttempts: int := 10

  /** What the script sees during one visit. */
  datatype VisitScene = VisitScene(
    dashboard: seq<Attempt>,  // the tries of the challenge on the dashboard
    dashboardPage: Page,      // the dashboard once it is passed
    listing: seq<Attempt>,    // the tries of the challenge after the "My VPS" step
    hrefs: seq<string>,       // the `href` of every anchor then, in document order
    detail: seq<Attempt>,     // the tries of the challenge after the detail step
    finalUrl: string)         // `page.url` at the end

  /** An anchor the page script keeps: a non-empty `href` mentioning `vserver`. */
  predicate Candidate(href: string) {
    href != "" && Contains(href, "vserver")
  }

  /** A link to a detail page. */
  predicate DetailLink(href: string) {
    Contains(href, "/id/") || Contains(href, "/show/")
  }

  /** The anchors the page script returns, in document order. */
  function Candidates(hrefs: seq<string>): (r: seq<string>)
    ensures |r| <= |hrefs|
    ensures forall i :: 0 <= i < |r| ==> Candidate(r[i])
  {
    if |hrefs| == 0 then []
    else if Candidate(hrefs[0]) then [hrefs[0]] + Candidates(hrefs[1..])
    else Candidates(hrefs[1..])
  }

  /** The page script keeps exactly the candidate anchors. */
  lemma {:induction false} CandidatesKeep(hrefs: seq<string>)
    ensures forall h :: h in Candidates(hrefs) <==> h in hrefs && Candidate(h)
  {
    if |hrefs| > 0 {
      CandidatesKeep(hrefs[1..]);
      assert hrefs == [hrefs[0]] + hrefs[1..];
    }
  }

  /** Filtering a concatenation filters each part: the page script keeps
      the anchors in document order. */
  lemma {:induction false} CandidatesAppend(a: seq<string>, b: seq<string>)
    ensures Candidates(a + b) == Candidates(a) + Candidates(b)
  {
    if |a| == 0 {
      assert a + b == b;
    } else {
      assert (a + b)[1..] == a[1..] + b;
      CandidatesAppend(a[1..], b);
    }
  }

  /** The first link of the loop that is a detail link. */
  function FirstDetail(links: seq<string>): (r: Option<string>)
    ensures r.Some? ==> DetailLink(r.value) && r.value in links
  {
    if |links| == 0 then None
    else if DetailLink(links[0]) then Some(links[0])
    else FirstDetail(links[1..])
  }

  /** The loop breaks at the first detail link, and finds none exactly when
      no link is one. */
  lemma {:induction false} FirstDetailFirst(links: seq<string>)
    ensures FirstDetail(links).None? <==> forall i :: 0 <= i < |links| ==> !DetailLink(links[i])
    ensures FirstDetail(links).Some? ==>
              exists i :: 0 <= i < |links| && links[i] == FirstDetail(links).value
                          && forall j :: 0 <= j < i ==> !DetailLink(links[j])
  {
    if |links| > 0 && !DetailLink(links[0]) {
      FirstDetailFirst(links[1..]);
      assert forall j :: 0 < j < |links| ==> links[j] == links[1..][j - 1];
      if FirstDetail(links).Some? {
        var i :| 0 <= i < |links[1..]| && links[1..][i] == FirstDetail(links).value
                 && forall j :: 0 <= j < i ==> !DetailLink(links[1..][j]);
        assert links[i + 1] == FirstDetail(links).value;
      }
    } else if |links| > 0 {
      assert links[0] == FirstDetail(links).value;
    }
  }

  /** The link `visit_vps_detail` navigates to, if any. */
  function SelectDetail(hrefs: seq<string>): (r: Option<string>)
    ensures r.Some? ==> Candidate(r.value) && DetailLink(r.value)
  {
    FirstDetail(Candidates(hrefs))
  }

  /** An anchor that the loop would pick. */
  predicate Qualifies(href: string) {
    Candidate(href) && DetailLink(href)
  }

  /** The position of the first anchor, in document order, that qualifies:
      the one-pass reading of the script's two filters. */
  function FirstQualifying(hrefs: seq<string>): (r: Option<nat>)
    ensures r.None? <==> forall i :: 0 <= i < |hrefs| ==> !Qualifies(hrefs[i])
    ensures r.Some? ==> r.value < |hrefs| && Qualifies(hrefs[r.value])
    ensures r.Some? ==> forall i :: 0 <= i < r.value ==> !Qualifies(hrefs[i])
  {
    if |hrefs| == 0 then None
    else if Qualifies(hrefs[0]) then Some(0)
    else
      match FirstQualifying(hrefs[1..])
      case None => None
      case Some(i) => Some(i + 1)
  }

  /** Filtering by `vserver` in the page and then by `/id/` or `/show/` in
      the loop picks the first anchor in document order that passes both
      tests, and picks none when no anchor does. */
  lemma {:induction false} SelectDetailFirst(hrefs: seq<string>)
    ensures SelectDetail(hrefs) == match FirstQualifying(hrefs)
                                   case None => None
                                   case Some(i) => Some(hrefs[i])
  {
    if |hrefs| > 0 {
      SelectDetailFirst(hrefs[1..]);
      if Candidate(hrefs[0]) {
        assert Candidates(hrefs) == [hrefs[0]] + Candidates(hrefs[1..]);
        if !DetailLink(hrefs[0]) {
          assert FirstDetail(Candidates(hrefs)) == FirstDetail(Candidates(hrefs[1..]));
        }
      }
    }
  }

  /** The navigation to the chosen detail page, if any. */
  function DetailStep(hrefs: seq<string>): (r: seq<Action>)
    ensures |r| <= 1
    ensures |r| == 1 <==> SelectDetail(hrefs).Some?
    ensures |r| == 1 ==> r[0] == Goto(SelectDetail(hrefs).value)
  {
    match SelectDetail(hrefs)
    case None => []
    case Some(h) => [Goto(h)]
  }

  datatype VisitOutcome = VisitOutcome(ok: bool, actions: seq<Action>)

  /** `visit_vps_detail()`. */
  function Visit(scene: VisitScene): (o: VisitOutcome)
    ensures o.ok <==> Clear(scene.dashboard, DefaultAttempts).cleared && Contains(scene.finalUrl, "vserver")
    ensures |o.actions| >= 1 && o.actions[0] == Goto(DashboardUrl)
  {
    if !Clear(scene.dashboard, DefaultAttempts).cleared then VisitOutcome(false, Opening(scene))
    else
      var actions := Approach(scene) + DetailStep(scene.hrefs) + Clicks(scene.detail, FollowUpAttempts);
      VisitOutcome(Contains(scene.finalUrl, "vserver"), actions)
  }

  /** Opening the dashboard and the challenge there. */
  function Opening(scene: VisitScene): (r: seq<Action>)
    ensures |r| >= 1 && r[0] == Goto(DashboardUrl)
    ensures forall i :: 1 <= i < |r| ==> r[i].Pointer?
    ensures OnlyGoesTo(r, DashboardUrl) && PageOnly(r)
  {
    [Goto(DashboardUrl)] + Clicks(scene.dashboard, DefaultAttempts)
  }

  /** Everything before the detail step; the only navigation in it is the
      one to the dashboard. */
  function Approach(scene: VisitScene): (r: seq<Action>)
    ensures |r| >= 1 && r[0] == Goto(DashboardUrl)
  {
    Opening(scene)
      + ClickIfFound(ChainHit(scene.dashboardPage, VpsChain, FirstIfVisible))
      + Clicks(scene.listing, FollowUpAttempts)
  }

  lemma ApproachPlain(scene: VisitScene)
    ensures OnlyGoesTo(Approach(scene), DashboardUrl) && PageOnly(Approach(scene))
  {
    PlainJoin(Opening(scene),
              ClickIfFound(ChainHit(scene.dashboardPage, VpsChain, FirstIfVisible)),
              Clicks(scene.listing, FollowUpAttempts),
              DashboardUrl);
  }

  /** A dashboard challenge that fails ends the visit at once. */
  lemma DashboardFailure(scene: VisitScene)
    requires !Clear(scene.dashboard, DefaultAttempts).cleared
    ensures !Visit(scene).ok
    ensures forall i :: 1 <= i < |Visit(scene).actions| ==> Visit(scene).actions[i].Pointer?
  {
  }

  /** The challenges after the dashboard never decide the result: their
      outcomes are ignored. */
  lemma FollowUpsIgnored(scene: VisitScene, listing: seq<Attempt>, detail: seq<Attempt>)
    ensures Visit(scene.(listing := listing, detail := detail)).ok == Visit(scene).ok
  {
  }

  /** The dashboard is never a candidate: its URL has no `vserver`. */
  lemma DashboardNotCandidate()
    ensures !Candidate(DashboardUrl)
  {
    ContainsHead(DashboardUrl, "vserver");
    assert 'v' !in DashboardUrl;
  }

  /** Without a qualifying anchor the visit navigates nowhere but the
      dashboard. With one, it navigates there exactly once, and nowhere
      but the dashboard and there: there is no retry. */
  lemma NavigatesOnlyToDetail(scene: VisitScene)
    ensures SelectDetail(scene.hrefs).None? ==> OnlyGoesTo(Visit(scene).actions, DashboardUrl)
    ensures Clear(scene.dashboard, DefaultAttempts).cleared && SelectDetail(scene.hrefs).Some? ==>
              var a := Visit(scene).actions;
              var link := SelectDetail(scene.hrefs).value;
              && (forall i :: 0 <= i < |a| && a[i].Goto? ==> a[i] == Goto(DashboardUrl) || a[i] == Goto(link))
              && Count(a, Goto(link)) == 1
  {
    if Clear(scene.dashboard, DefaultAttempts).cleared {
      var a := Approach(scene);
      var d := DetailStep(scene.hrefs);
      var z := Clicks(scene.detail, FollowUpAttempts);
      assert Visit(scene).actions == a + d + z;
      ApproachPlain(scene);
      if SelectDetail(scene.hrefs).None? {
        assert OnlyGoesTo(d, DashboardUrl) && OnlyGoesTo(z, DashboardUrl);
        OnlyGoesToAppend(a, d, DashboardUrl);
        OnlyGoesToAppend(a + d, z, DashboardUrl);
      } else {
        DetailOnce(a, SelectDetail(scene.hrefs).value, z);
      }
    } else {
      assert OnlyGoesTo(Opening(scene), DashboardUrl);
    }
  }

  /** Dashboard-only navigation, one navigation to a detail link, then no
      navigation. */
  lemma DetailOnce(a: seq<Action>, link: string, z: seq<Action>)
    requires OnlyGoesTo(a, DashboardUrl) && NoNavigation(z) && Candidate(link)
    ensures var all := a + [Goto(link)] + z;
            && (forall i :: 0 <= i < |all| && all[i].Goto? ==> all[i] == Goto(DashboardUrl) || all[i] == Goto(link))
            && Count(all, Goto(link)) == 1
  {
    DetailTargets(a, link, z);
    NotDashboard(link);
    NotVisited(a, link);
    assert Goto(link) !in z;
    CountOnce(a, Goto(link), z);
  }

  lemma NotDashboard(link: string)
    requires Candidate(link)
    ensures link != DashboardUrl
  {
    DashboardNotCandidate();
  }

  lemma CountOnce(a: seq<Action>, x: Action, z: seq<Action>)
    requires x !in a && x !in z
    ensures Count(a + [x] + z, x) == 1
  {
    CountAppend(a, [x], x);
    CountAppend(a + [x], z, x);
  }

  lemma DetailTargets(a: seq<Action>, link: string, z: seq<Action>)
    requires OnlyGoesTo(a, DashboardUrl) && NoNavigation(z)
    ensures var all := a + [Goto(link)] + z;
            forall i :: 0 <= i < |all| && all[i].Goto? ==> all[i] == Goto(DashboardUrl) || all[i] == Goto(link)
  {
    var all := a + [Goto(link)] + z;
    forall i | 0 <= i < |all| ensures all[i].Goto? ==> all[i] == Goto(DashboardUrl) || all[i] == Goto(link) {
      if i < |a| { assert all[i] == a[i]; }
      else if i > |a| { assert all[i] == z[i - |a| - 1]; }
    }
  }

  /** Actions that only go to the dashboard never go to another URL. */
  lemma NotVisited(a: seq<Action>, link: string)
    requires OnlyGoesTo(a, DashboardUrl) && link != DashboardUrl
    ensures Goto(link) !in a
  {
  }

  /** A visit only acts on the page. */
  lemma VisitPageOnly(scene: VisitScene)
    ensures PageOnly(Visit(scene).actions)
  {
    if Clear(scene.dashboard, DefaultAttempts).cleared {
      var d := DetailStep(scene.hrefs);
      var z := Clicks(scene.detail, FollowUpAttempts);
      assert PageOnly(d) && PageOnly(z);
      ApproachPlain(scene);
      PageOnlyAppend(Approach(scene), d);
      PageOnlyAppend(Approach(scene) + d, z);
    } else {
      assert PageOnly(Opening(scene));
    }
  }
}
