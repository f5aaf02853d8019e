/** The page as the script observes it: elements in document order, each
    with the selectors it matches, whether it is visible and its
    `placeholder` attribute. The browser side effects the script causes are
    recorded as a list of actions. */
module Browser {
  import opened Results
  import opened Text

  const LoginUrl: string := "https://zap-hosting.com/en/#login"
  const DashboardUrl: string := "https://zap-hosting.com/en/customer/home/"

  /** The CSS/text selectors the script queries. */
  datatype Selector =
    | AcceptAllButton        // button:has-text("Accept all")
    | LogInBangText          // text="Log in!"
    | AlreadyRegisteredText  // text="Already registered"
    | LogInAnchor            // a:has-text("Log in")
    | EMailPlaceholder       // input[placeholder*="E-Mail"]
    | LowerEMailPlaceholder  // input[placeholder*="e-mail"]
    | UsernamePlaceholder    // input[placeholder*="Username"]
    | ModalTextInput         // .modal input[type="text"]
    | TextOrEmailInput       // input[type="text"], input[type="email"]
    | PasswordInput          // input[type="password"]
    | LoginButton            // button:has-text("Login")
    | LogInButton            // button:has-text("Log in")
    | SubmitInput            // input[type="submit"]
    | ModalConfirmButton     // #recaptcha-login button:has-text("Log in"), .modal button:has-text("Log in")
    | MyVpsAnchor            // a:has-text("My VPS")
    | VserverHrefAnchor      // a[href*="vserver"]
    | MyVpsText              // text=My VPS

  datatype Element = Element(matches: set<Selector>, visible: bool, placeholder: Option<string>)

  /** A snapshot of the document; an element is named by its position. */
  type Page = seq<Element>

  /** A CDP mouse event dispatched at the challenge widget. */
  datatype PointerEvent = Press | Release

  /** The browser side effects, in the order they happen. */
  datatype Action =
    | LoadSession(found: bool)
    | Goto(url: string)
    | Pointer(event: PointerEvent)
    | Click(element: nat)
    | Fill(element: nat, text: string)
    | PressEnter(element: nat)
    | PressEnterOnPage
    | InjectToken(token: Option<string>)
    | Reload
    | SaveSession
    | CloseBrowser

  /** `page.query_selector(sel)`: the first element in document order that
      matches, if any. */
  function QueryFirst(page: Page, sel: Selector): (r: Option<nat>)
    ensures r.None? <==> forall i :: 0 <= i < |page| ==> sel !in page[i].matches
    ensures r.Some? ==> r.value < |page| && sel in page[r.value].matches
    ensures r.Some? ==> forall i :: 0 <= i < r.value ==> sel !in page[i].matches
  {
    if |page| == 0 then None
    else if sel in page[0].matches then Some(0)
    else
      match QueryFirst(page[1..], sel)
      case None => None
      case Some(i) => Some(i + 1)
  }

  /** `el and await el.is_visible()` for the result of `query_selector`. */
  predicate VisibleHit(page: Page, hit: Option<nat>) {
    hit.Some? && hit.value < |page| && page[hit.value].visible
  }

  /** The first visible element, in document order, that matches `sel`: the
      `for el in query_selector_all(sel): if await el.is_visible()` loop. */
  function FirstVisible(page: Page, sel: Selector): (r: Option<nat>)
    ensures r.None? <==> forall i :: 0 <= i < |page| ==> !(sel in page[i].matches && page[i].visible)
    ensures r.Some? ==> r.value < |page| && sel in page[r.value].matches && page[r.value].visible
    ensures r.Some? ==> forall i :: 0 <= i < r.value ==> !(sel in page[i].matches && page[i].visible)
  {
    if |page| == 0 then None
    else if sel in page[0].matches && page[0].visible then Some(0)
    else
      match FirstVisible(page[1..], sel)
      case None => None
      case Some(i) => Some(i + 1)
  }

  /** A visible first match implies the first visible match is that element. */
  lemma FirstVisibleOfVisibleFirst(page: Page, sel: Selector)
    requires VisibleHit(page, QueryFirst(page, sel))
    ensures FirstVisible(page, sel) == QueryFirst(page, sel)
  {
  }

  /** How one selector of a fallback chain is tried: its first match
      (`query_selector`), its first match only when visible
      (`el and await el.is_visible()`), or its first visible match (a loop
      over `query_selector_all`). */
  datatype Probe = FirstMatch | FirstIfVisible | AnyVisible

  function Try(page: Page, sel: Selector, probe: Probe): (r: Option<nat>)
    ensures r.Some? ==> r.value < |page| && sel in page[r.value].matches
    ensures r.Some? && probe != FirstMatch ==> page[r.value].visible
  {
    match probe
    case FirstMatch => QueryFirst(page, sel)
    case FirstIfVisible => if VisibleHit(page, QueryFirst(page, sel)) then QueryFirst(page, sel) else None
    case AnyVisible => FirstVisible(page, sel)
  }

  /** The element a fallback chain settles on: what the first selector that
      finds anything finds. */
  function ChainHit(page: Page, chain: seq<Selector>, probe: Probe): (r: Option<nat>)
    ensures r.Some? ==> r.value < |page| && (probe != FirstMatch ==> page[r.value].visible)
  {
    if |chain| == 0 then None
    else
      match Try(page, chain[0], probe)
      case Some(i) => Some(i)
      case None => ChainHit(page, chain[1..], probe)
  }

  /** The chain finds nothing exactly when every selector finds nothing;
      otherwise it returns what the first successful selector finds. */
  lemma ChainHitFirst(page: Page, chain: seq<Selector>, probe: Probe)
    ensures ChainHit(page, chain, probe).None? <==> forall j :: 0 <= j < |chain| ==> Try(page, chain[j], probe).None?
    ensures ChainHit(page, chain, probe).Some? ==>
              exists j :: 0 <= j < |chain| && ChainHit(page, chain, probe) == Try(page, chain[j], probe)
                          && forall j' :: 0 <= j' < j ==> Try(page, chain[j'], probe).None?
  {
    ChainHitNone(page, chain, probe);
    ChainHitSome(page, chain, probe);
  }

  lemma {:induction false} ChainHitNone(page: Page, chain: seq<Selector>, probe: Probe)
    ensures ChainHit(page, chain, probe).None? <==> forall j :: 0 <= j < |chain| ==> Try(page, chain[j], probe).None?
  {
    if |chain| > 0 && Try(page, chain[0], probe).None? {
      ChainHitNone(page, chain[1..], probe);
      assert forall j :: 0 < j < |chain| ==> chain[1..][j - 1] == chain[j];
    }
  }

  lemma {:induction false} ChainHitSome(page: Page, chain: seq<Selector>, probe: Probe)
    ensures ChainHit(page, chain, probe).Some? ==>
              exists j :: 0 <= j < |chain| && ChainHit(page, chain, probe) == Try(page, chain[j], probe)
                          && forall j' :: 0 <= j' < j ==> Try(page, chain[j'], probe).None?
  {
    if |chain| > 0 && Try(page, chain[0], probe).None? && ChainHit(page, chain, probe).Some? {
      ChainHitSome(page, chain[1..], probe);
      var j :| 0 <= j < |chain[1..]| && ChainHit(page, chain[1..], probe) == Try(page, chain[1..][j], probe)
               && forall j' :: 0 <= j' < j ==> Try(page, chain[1..][j'], probe).None?;
      assert chain[1..][j] == chain[j + 1];
      forall j' | 0 <= j' < j + 1 ensures Try(page, chain[j'], probe).None? {
        if j' > 0 { assert chain[j'] == chain[1..][j' - 1]; }
      }
    }
  }

  /** A click on the element found, if any. */
  function ClickIfFound(hit: Option<nat>): (r: seq<Action>)
    ensures |r| == (if hit.Some? then 1 else 0)
    ensures hit.Some? ==> r == [Click(hit.value)]
    ensures NoNavigation(r) && PageOnly(r)
  {
    if hit.Some? then [Click(hit.value)] else []
  }

  /** How many times `a` occurs in `actions`. */
  function Count(actions: seq<Action>, a: Action): (n: nat)
    ensures n <= |actions|
    ensures n == 0 <==> a !in actions
  {
    if |actions| == 0 then 0
    else (if actions[0] == a then 1 else 0) + Count(actions[1..], a)
  }

  lemma {:induction false} CountAppend(x: seq<Action>, y: seq<Action>, a: Action)
    ensures Count(x + y, a) == Count(x, a) + Count(y, a)
  {
    if |x| == 0 {
      assert x + y == y;
    } else {
      assert (x + y)[1..] == x[1..] + y;
      CountAppend(x[1..], y, a);
    }
  }

  /** The mouse events of a list of actions, as actions. */
  function Pointers(events: seq<PointerEvent>): (r: seq<Action>)
    ensures |r| == |events|
    ensures forall i :: 0 <= i < |events| ==> r[i] == Pointer(events[i])
  {
    seq(|events|, i requires 0 <= i < |events| => Pointer(events[i]))
  }

  /** An action on the page itself, as opposed to loading or saving the
      session or closing the browser. */
  predicate InPage(a: Action) {
    !a.LoadSession? && !a.SaveSession? && !a.CloseBrowser?
  }

  predicate PageOnly(actions: seq<Action>) {
    forall i :: 0 <= i < |actions| ==> InPage(actions[i])
  }

  lemma PageOnlyAppend(x: seq<Action>, y: seq<Action>)
    requires PageOnly(x) && PageOnly(y)
    ensures PageOnly(x + y)
  {
    forall i | 0 <= i < |x + y| ensures InPage((x + y)[i]) {
      if i >= |x| { assert (x + y)[i] == y[i - |x|]; }
    }
  }

  /** No action navigates. */
  predicate NoNavigation(actions: seq<Action>) {
    forall i :: 0 <= i < |actions| ==> !actions[i].Goto?
  }

  /** Every navigation among `actions` goes to `url`. */
  predicate OnlyGoesTo(actions: seq<Action>, url: string) {
    forall i :: 0 <= i < |actions| && actions[i].Goto? ==> actions[i] == Goto(url)
  }

  lemma OnlyGoesToAppend(x: seq<Action>, y: seq<Action>, url: string)
    requires OnlyGoesTo(x, url) && OnlyGoesTo(y, url)
    ensures OnlyGoesTo(x + y, url)
  {
    forall i | 0 <= i < |x + y| && (x + y)[i].Goto? ensures (x + y)[i] == Goto(url) {
      if i < |x| { assert (x + y)[i] == x[i]; } else { assert (x + y)[i] == y[i - |x|]; }
    }
  }

  /** Joining page actions of which only the first part navigates, and only
      to `url`. */
  lemma PlainJoin(x: seq<Action>, y: seq<Action>, z: seq<Action>, url: string)
    requires OnlyGoesTo(x, url) && PageOnly(x)
    requires NoNavigation(y) && PageOnly(y) && NoNavigation(z) && PageOnly(z)
    ensures OnlyGoesTo(x + y + z, url) && PageOnly(x + y + z)
  {
    assert OnlyGoesTo(y, url) && OnlyGoesTo(z, url);
    OnlyGoesToAppend(x, y, url);
    OnlyGoesToAppend(x + y, z, url);
    PageOnlyAppend(x, y);
    PageOnlyAppend(x + y, z);
  }

  /** Page actions never save the session or close the browser. */
  lemma PageOnlyNeverCloses(actions: seq<Action>)
    requires PageOnly(actions)
    ensures Count(actions, CloseBrowser) == 0 && SaveSession !in actions
  {
  }
}
