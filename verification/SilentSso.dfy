/** Silent sign-in: the two browser markers that keep it from looping and from undoing a sign-out. */
module SilentSso {
  import opened Wrappers

  const ATTEMPTED_KEY := "appstore.sso.silentAttempted"
  const SIGNED_OUT_KEY := "appstore.sso.signedOut"

  /** How a browser storage behaves: normally, always throwing, or readable but refusing writes. */
  datatype Mode = Works | Throws | ReadOnly

  /** A flag that cannot be read counts as set. */
  predicate ReadFlag(mode: Mode, stored: bool) {
    mode.Throws? || stored
  }

  predicate AfterWrite(mode: Mode, stored: bool, value: bool) {
    if mode.Works? then value else stored
  }

  class Storage {
    var mode: Mode
    var items: map<string, string>

    constructor (mode: Mode)
      ensures this.mode == mode && items == map[]
    {
      this.mode, items := mode, map[];
    }

    predicate Stored(key: string)
      reads this
    {
      key in items && items[key] == "true"
    }

    predicate Flag(key: string)
      reads this
    {
      ReadFlag(mode, Stored(key))
    }

    method WriteFlag(key: string, value: bool)
      modifies this`items
      ensures Stored(key) == AfterWrite(mode, old(Stored(key)), value)
      ensures forall k :: k != key ==> Stored(k) == old(Stored(k))
    {
      if !mode.Works? {
        return;
      }
      if value {
        items := items[key := "true"];
      } else {
        items := items - {key};
      }
    }
  }

  method MarkSignedOut(browser: Storage, tab: Storage)
    requires browser != tab
    modifies browser`items, tab`items
    ensures browser.Stored(SIGNED_OUT_KEY) <==> browser.mode.Works? || old(browser.Stored(SIGNED_OUT_KEY))
    ensures tab.Stored(ATTEMPTED_KEY) <==> tab.mode.Works? || old(tab.Stored(ATTEMPTED_KEY))
  {
    browser.WriteFlag(SIGNED_OUT_KEY, true);
    tab.WriteFlag(ATTEMPTED_KEY, true);
  }

  method ClearSilentSsoState(browser: Storage, tab: Storage)
    requires browser != tab
    modifies browser`items, tab`items
    ensures browser.Stored(SIGNED_OUT_KEY) <==> !browser.mode.Works? && old(browser.Stored(SIGNED_OUT_KEY))
    ensures tab.Stored(ATTEMPTED_KEY) <==> !tab.mode.Works? && old(tab.Stored(ATTEMPTED_KEY))
  {
    browser.WriteFlag(SIGNED_OUT_KEY, false);
    tab.WriteFlag(ATTEMPTED_KEY, false);
  }

  /** `eligible` is what does not depend on the markers: configuration, path and the address's refusal marker. */
  predicate ShouldAttempt(eligible: bool, signedOut: bool, attempted: bool, browser: Mode, tab: Mode) {
    eligible && !ReadFlag(browser, signedOut) && !ReadFlag(tab, attempted)
  }

  /** The effect that runs in a page: clears the markers, starts an attempt, or does nothing. */
  method React(browser: Storage, tab: Storage, known: Option<bool>, eligible: bool) returns (attempts: bool)
    requires browser != tab
    modifies browser`items, tab`items
    ensures attempts <==>
              && known == Some(false) && eligible && !browser.mode.Throws? && !tab.mode.Throws?
              && !old(browser.Stored(SIGNED_OUT_KEY)) && !old(tab.Stored(ATTEMPTED_KEY))
    ensures browser.Stored(SIGNED_OUT_KEY)
            <==> old(browser.Stored(SIGNED_OUT_KEY)) && !(known == Some(true) && browser.mode.Works?)
    ensures tab.Stored(ATTEMPTED_KEY)
            <==> || (attempts && tab.mode.Works?)
                 || (old(tab.Stored(ATTEMPTED_KEY)) && !(known == Some(true) && tab.mode.Works?))
  {
    if known.None? {
      return false;
    }
    if known.value {
      ClearSilentSsoState(browser, tab);
      return false;
    }
    if !eligible || browser.Flag(SIGNED_OUT_KEY) || tab.Flag(ATTEMPTED_KEY) {
      return false;
    }
    tab.WriteFlag(ATTEMPTED_KEY, true);
    return true;
  }

  // ---- Runs ----

  /** How far signing out has got in a tab: its markers are written, then the server is asked, then the page's own
      belief is corrected. */
  datatype Leaving = Staying | LogoutSent | LogoutAnswered

  /** A tab: its marker, what it believes about the session, its sign-out, and how often it tried and saw a session. */
  datatype Tab = Tab(attempted: bool, known: Option<bool>, leaving: Leaving, attempts: nat, observed: nat)

  datatype World = World(signedOut: bool, session: bool, tabs: map<nat, Tab>)

  /** Opens a tab, afresh or as a copy; loads a page in it; learns the session's state; reacts to it; begins signing
      out in it, has the request answered or refused, and corrects the page's belief. The session may also begin or
      end on its own. Storage modes may differ at every step. */
  datatype Step =
    | Opens(tab: nat, copyOf: Option<nat>)
    | Loads(tab: nat)
    | Learns(tab: nat)
    | Reacts(tab: nat, eligible: bool, browserMode: Mode, tabMode: Mode)
    | Marks(tab: nat, browserMode: Mode, tabMode: Mode)
    | LogsOut(tab: nat)
    | LogoutFails(tab: nat)
    | Corrects(tab: nat)
    | SessionBegins
    | SessionEnds

  predicate Enabled(w: World, step: Step) {
    match step
    case Opens(t, copyOf) => t !in w.tabs && (copyOf.Some? ==> copyOf.value in w.tabs)
    case Loads(t) => t in w.tabs
    case Learns(t) => t in w.tabs
    case Reacts(t, _, _, _) => t in w.tabs
    case Marks(t, _, _) => t in w.tabs
    case LogsOut(t) => t in w.tabs && w.tabs[t].leaving.LogoutSent?
    case LogoutFails(t) => t in w.tabs && w.tabs[t].leaving.LogoutSent?
    case Corrects(t) => t in w.tabs && w.tabs[t].leaving.LogoutAnswered?
    case SessionBegins => true
    case SessionEnds => true
  }

  /** Whether a step is a silent attempt. */
  predicate Attempts(w: World, step: Step) {
    step.Reacts? && step.tab in w.tabs && w.tabs[step.tab].known == Some(false)
    && ShouldAttempt(step.eligible, w.signedOut, w.tabs[step.tab].attempted, step.browserMode, step.tabMode)
  }

  /** A page that believes there is no session tries exactly when it may and both markers can be read and are unset. */
  lemma AttemptsExactly(w: World, step: Step)
    requires Enabled(w, step)
    ensures Attempts(w, step)
            <==> && step.Reacts? && w.tabs[step.tab].known == Some(false) && step.eligible
                 && step.browserMode in {Works, ReadOnly} && !w.signedOut
                 && step.tabMode in {Works, ReadOnly} && !w.tabs[step.tab].attempted
  {
  }

  /** Whether a step is a page that believes there is a session. */
  predicate Observes(w: World, step: Step) {
    step.Reacts? && step.tab in w.tabs && w.tabs[step.tab].known == Some(true)
  }

  function Next(w: World, step: Step): World
    requires Enabled(w, step)
  {
    match step
    case Opens(t, copyOf) =>
      w.(tabs := w.tabs[t := Tab(copyOf.Some? && w.tabs[copyOf.value].attempted, None, Staying, 0, 0)])
    case Loads(t) => w.(tabs := w.tabs[t := w.tabs[t].(known := None, leaving := Staying)])
    case Learns(t) => w.(tabs := w.tabs[t := w.tabs[t].(known := Some(w.session))])
    case Reacts(t, _, browser, tab) =>
      var v := w.tabs[t];
      if Observes(w, step) then
        w.(signedOut := AfterWrite(browser, w.signedOut, false),
           tabs := w.tabs[t := v.(attempted := AfterWrite(tab, v.attempted, false), observed := v.observed + 1)])
      else if Attempts(w, step) then
        w.(tabs := w.tabs[t := v.(attempted := AfterWrite(tab, v.attempted, true), attempts := v.attempts + 1,
                                    known := None, leaving := Staying)])
      else w
    case Marks(t, browser, tab) =>
      var v := w.tabs[t];
      w.(signedOut := AfterWrite(browser, w.signedOut, true),
         tabs := w.tabs[t := v.(attempted := AfterWrite(tab, v.attempted, true), leaving := LogoutSent)])
    case LogsOut(t) => w.(session := false, tabs := w.tabs[t := w.tabs[t].(leaving := LogoutAnswered)])
    case LogoutFails(t) => w.(tabs := w.tabs[t := w.tabs[t].(leaving := Staying)])
    case Corrects(t) => w.(tabs := w.tabs[t := w.tabs[t].(known := Some(false), leaving := Staying)])
    case SessionBegins => w.(session := true)
    case SessionEnds => w.(session := false)
  }

  ghost predicate Reaches(w: World, steps: seq<Step>, end: World)
    decreases |steps|
  {
    if steps == [] then w == end
    else Enabled(w, steps[0]) && Reaches(Next(w, steps[0]), steps[1..], end)
  }

  /** A step of this tab. */
  predicate Concerns(step: Step, t: nat) {
    !step.SessionBegins? && !step.SessionEnds? && step.tab == t
  }

  /** What is counted: a tab opens with nothing, an attempt is one attempt, and a page that believes there is a session
      sees one. */
  lemma CountersExactly(w: World, step: Step, t: nat)
    requires Enabled(w, step) && t in Next(w, step).tabs
    ensures var after := Next(w, step).tabs[t];
            && after.attempts == (if t in w.tabs then w.tabs[t].attempts else 0)
                                 + (if Attempts(w, step) && Concerns(step, t) then 1 else 0)
            && after.observed == (if t in w.tabs then w.tabs[t].observed else 0)
                                 + (if Observes(w, step) && Concerns(step, t) then 1 else 0)
  {
  }

  /** Where a belief comes from: a page that loads has none, the session's state is learned as it is, and a page that
      has signed out believes there is none. Only the logout, or its own end, takes a session away. */
  lemma BeliefsExactly(w: World, step: Step, t: nat)
    requires Enabled(w, step) && t in w.tabs
    ensures Next(w, step).session <==> step.SessionBegins? || (w.session && !step.SessionEnds? && !step.LogsOut?)
    ensures t in Next(w, step).tabs
    ensures var v := Next(w, step).tabs[t];
            if !Concerns(step, t) then v == w.tabs[t]
            else if step.Loads? || Attempts(w, step) then v.known.None? && v.leaving.Staying?
            else if step.Learns? then v == w.tabs[t].(known := Some(w.session))
            else if step.Corrects? then v == w.tabs[t].(known := Some(false), leaving := Staying)
            else v.known == w.tabs[t].known
  {
  }

  /** A tab has used no more attempts than one, plus one for each session it saw; an unset marker is one still to
      use. */
  predicate TabWithin(v: Tab) {
    v.attempts + (if v.attempted then 0 else 1) <= 1 + v.observed
  }

  ghost predicate Within(w: World) {
    forall t :: t in w.tabs ==> TabWithin(w.tabs[t])
  }

  /** The attempts a run makes are remembered only where the tab's storage takes writes. */
  ghost predicate Remembers(w: World, steps: seq<Step>)
    decreases |steps|
  {
    steps != [] && Enabled(w, steps[0]) ==>
      (Attempts(w, steps[0]) ==> steps[0].tabMode.Works?) && Remembers(Next(w, steps[0]), steps[1..])
  }

  /** A step keeps every tab within its attempts exactly unless it is the last allowed attempt of a tab and its
      marker can be read but not written. */
  lemma StepKeepsWithinExactly(w: World, step: Step)
    requires Within(w) && Enabled(w, step)
    ensures Within(Next(w, step)) <==>
              !(Attempts(w, step) && !step.tabMode.Works? && w.tabs[step.tab].attempts == w.tabs[step.tab].observed)
  {
    if Attempts(w, step) {
      var t := step.tab;
      assert TabWithin(w.tabs[t]);
      assert !step.tabMode.Works? && w.tabs[t].attempts == w.tabs[t].observed ==> !TabWithin(Next(w, step).tabs[t]);
    }
  }

  lemma {:induction false} AttemptsAreBounded(w: World, steps: seq<Step>, end: World, t: nat)
    requires Within(w) && Reaches(w, steps, end) && Remembers(w, steps) && t in end.tabs
    ensures end.tabs[t].attempts <= 1 + end.tabs[t].observed
    decreases |steps|
  {
    if steps == [] {
      assert TabWithin(end.tabs[t]);
    } else {
      StepKeepsWithinExactly(w, steps[0]);
      AttemptsAreBounded(Next(w, steps[0]), steps[1..], end, t);
    }
  }

  /** A run in which no page believes there is a session. */
  ghost predicate NobodyObserves(w: World, steps: seq<Step>)
    decreases |steps|
  {
    steps != [] && Enabled(w, steps[0]) ==> !Observes(w, steps[0]) && NobodyObserves(Next(w, steps[0]), steps[1..])
  }

  /** How many attempts a run makes, over all tabs. */
  function AttemptsIn(w: World, steps: seq<Step>): nat
    decreases |steps|
  {
    if steps == [] || !Enabled(w, steps[0]) then 0
    else (if Attempts(w, steps[0]) then 1 else 0) + AttemptsIn(Next(w, steps[0]), steps[1..])
  }

  /** Once signed out, no tab attempts until some page believes there is a session, however storages behave. */
  lemma {:induction false} NoAttemptWhileSignedOut(w: World, steps: seq<Step>)
    requires w.signedOut && NobodyObserves(w, steps)
    ensures AttemptsIn(w, steps) == 0
    decreases |steps|
  {
    if steps != [] && Enabled(w, steps[0]) {
      NoAttemptWhileSignedOut(Next(w, steps[0]), steps[1..]);
    }
  }

  /** Signing out leaves each marker exactly when it was there or its storage takes writes. */
  lemma SignOutIsRememberedExactly(w: World, step: Step)
    requires step.Marks? && Enabled(w, step)
    ensures Next(w, step).signedOut <==> w.signedOut || step.browserMode.Works?
    ensures var v := Next(w, step).tabs[step.tab];
            (v.attempted <==> w.tabs[step.tab].attempted || step.tabMode.Works?) && v.leaving.LogoutSent?
  {
  }

  /** The steps that lift the mark: a page that believes there is a session, with a storage that takes writes. */
  predicate Lifts(w: World, step: Step) {
    Observes(w, step) && step.browserMode.Works?
  }

  /** The mark is lifted by exactly those steps, and without a session exactly when what the page believes is out of
      date. */
  lemma MarkIsLiftedExactly(w: World, step: Step)
    requires Enabled(w, step) && w.signedOut
    ensures !Next(w, step).signedOut <==> Lifts(w, step)
    ensures !Next(w, step).signedOut && !w.session
            <==> Lifts(w, step) && w.tabs[step.tab].known != Some(w.session)
  {
  }

  ghost predicate NobodyLifts(w: World, steps: seq<Step>)
    decreases |steps|
  {
    steps != [] && Enabled(w, steps[0]) ==> !Lifts(w, steps[0]) && NobodyLifts(Next(w, steps[0]), steps[1..])
  }

  ghost predicate NoOneMarks(steps: seq<Step>) {
    forall i :: 0 <= i < |steps| ==> !steps[i].Marks?
  }

  lemma {:induction false} UnmarkedStays(w: World, steps: seq<Step>, end: World)
    requires !w.signedOut && Reaches(w, steps, end) && NoOneMarks(steps)
    ensures !end.signedOut
    decreases |steps|
  {
    if steps != [] {
      UnmarkedStays(Next(w, steps[0]), steps[1..], end);
    }
  }

  /** Over a whole run, from the writing of the mark through the answer to the logout and beyond: the mark of a
      sign-out is still there exactly when no page, in whatever tab, lifted it meanwhile. */
  lemma {:induction false} MarkLastsExactly(w: World, steps: seq<Step>, end: World)
    requires w.signedOut && Reaches(w, steps, end) && NoOneMarks(steps)
    ensures end.signedOut <==> NobodyLifts(w, steps)
    decreases |steps|
  {
    if steps != [] {
      MarkIsLiftedExactly(w, steps[0]);
      if Lifts(w, steps[0]) {
        UnmarkedStays(Next(w, steps[0]), steps[1..], end);
      } else {
        MarkLastsExactly(Next(w, steps[0]), steps[1..], end);
      }
    }
  }

  /** From the moment a page marks the sign-out: it is remembered at the end of a run exactly when the mark was there
      already or could be written, and no page lifted it meanwhile. */
  lemma {:induction false} SignOutLastsExactly(w: World, mark: Step, steps: seq<Step>, end: World)
    requires mark.Marks? && Enabled(w, mark) && Reaches(Next(w, mark), steps, end) && NoOneMarks(steps)
    ensures end.signedOut <==> (w.signedOut || mark.browserMode.Works?) && NobodyLifts(Next(w, mark), steps)
  {
    SignOutIsRememberedExactly(w, mark);
    if Next(w, mark).signedOut {
      MarkLastsExactly(Next(w, mark), steps, end);
    } else {
      UnmarkedStays(Next(w, mark), steps, end);
    }
  }

  lemma {:induction false} OneMore(w: World, step: Step, rest: seq<Step>)
    requires Enabled(w, step)
    ensures AttemptsIn(w, [step] + rest) == (if Attempts(w, step) then 1 else 0) + AttemptsIn(Next(w, step), rest)
  {
    assert ([step] + rest)[1..] == rest;
  }

  lemma {:induction false} NoMore(w: World)
    ensures AttemptsIn(w, []) == 0
  {
  }

  /** The page that signs out can undo it by itself: it still believes in its session while the logout is on its way,
      so a change of route lifts both markers, and once its belief is corrected it attempts. */
  lemma {:induction false} SameTabUndoesSignOut(w: World, t: nat)
    requires t in w.tabs && w.tabs[t].known == Some(true)
    ensures AttemptsIn(w, [Marks(t, Works, Works)] + ([Reacts(t, true, Works, Works)] + ([LogsOut(t)] + ([Corrects(t)]
                          + ([Reacts(t, true, Works, Works)] + []))))) == 1
  {
    var react := Reacts(t, true, Works, Works);
    var w1 := Next(w, Marks(t, Works, Works));
    var w2 := Next(w1, react);
    var w3 := Next(w2, LogsOut(t));
    var w4 := Next(w3, Corrects(t));
    NoMore(Next(w4, react));
    OneMore(w4, react, []);
    OneMore(w3, Corrects(t), [react] + []);
    OneMore(w2, LogsOut(t), [Corrects(t)] + ([react] + []));
    OneMore(w1, react, [LogsOut(t)] + ([Corrects(t)] + ([react] + [])));
    OneMore(w, Marks(t, Works, Works), [react] + ([LogsOut(t)] + ([Corrects(t)] + ([react] + []))));
  }

  /** A logout the server did not answer leaves the page believing in its session; its next reaction lifts the mark,
      and when the session ends by itself a new tab attempts although the person had asked to be signed out. */
  lemma {:induction false} FailedLogoutForgetsSignOut(w: World, t: nat, newTab: nat)
    requires t in w.tabs && w.tabs[t].known == Some(true) && newTab !in w.tabs
    ensures AttemptsIn(w, [Marks(t, Works, Works)] + ([LogoutFails(t)] + ([Reacts(t, true, Works, Works)]
                          + ([SessionEnds] + ([Opens(newTab, None)] + ([Learns(newTab)]
                          + ([Reacts(newTab, true, Works, Works)] + []))))))) == 1
  {
    var last := Reacts(newTab, true, Works, Works);
    var w1 := Next(w, Marks(t, Works, Works));
    var w2 := Next(w1, LogoutFails(t));
    var w3 := Next(w2, Reacts(t, true, Works, Works));
    var w4 := Next(w3, SessionEnds);
    var w5 := Next(w4, Opens(newTab, None));
    var w6 := Next(w5, Learns(newTab));
    var s6 := [last] + [];
    var s5 := [Learns(newTab)] + s6;
    var s4 := [Opens(newTab, None)] + s5;
    var s3 := [SessionEnds] + s4;
    var s2 := [Reacts(t, true, Works, Works)] + s3;
    NoMore(Next(w6, last));
    OneMore(w6, last, []);
    OneMore(w5, Learns(newTab), s6);
    OneMore(w4, Opens(newTab, None), s5);
    OneMore(w3, SessionEnds, s4);
    OneMore(w2, Reacts(t, true, Works, Works), s3);
    OneMore(w1, LogoutFails(t), s2);
    OneMore(w, Marks(t, Works, Works), [LogoutFails(t)] + s2);
  }

  /** A page left open in another tab undoes a finished sign-out: nobody signed in again, yet a new tab attempts. */
  lemma {:induction false} StaleTabUndoesSignOut(w: World, stale: nat, leaving: nat, newTab: nat)
    requires stale in w.tabs && leaving in w.tabs && stale != leaving && newTab !in w.tabs
    requires w.tabs[stale].known == Some(true)
    ensures AttemptsIn(w, [Marks(leaving, Works, Works)] + ([LogsOut(leaving)] + ([Corrects(leaving)]
                          + ([Reacts(stale, true, Works, Works)] + ([Opens(newTab, None)] + ([Learns(newTab)]
                          + ([Reacts(newTab, true, Works, Works)] + []))))))) == 1
  {
    var last := Reacts(newTab, true, Works, Works);
    var w1 := Next(w, Marks(leaving, Works, Works));
    var w2 := Next(w1, LogsOut(leaving));
    var w3 := Next(w2, Corrects(leaving));
    var w4 := Next(w3, Reacts(stale, true, Works, Works));
    var w5 := Next(w4, Opens(newTab, None));
    var w6 := Next(w5, Learns(newTab));
    var s6 := [last] + [];
    var s5 := [Learns(newTab)] + s6;
    var s4 := [Opens(newTab, None)] + s5;
    var s3 := [Reacts(stale, true, Works, Works)] + s4;
    var s2 := [Corrects(leaving)] + s3;
    NoMore(Next(w6, last));
    OneMore(w6, last, []);
    OneMore(w5, Learns(newTab), s6);
    OneMore(w4, Opens(newTab, None), s5);
    OneMore(w3, Reacts(stale, true, Works, Works), s4);
    OneMore(w2, Corrects(leaving), s3);
    OneMore(w1, LogsOut(leaving), s2);
    OneMore(w, Marks(leaving, Works, Works), [LogsOut(leaving)] + s2);
  }

  /** Refused again and again: `n` rounds of learning there is no session, attempting, and coming back. */
  function Bounces(t: nat, n: nat): seq<Step> {
    if n == 0 then [] else [Loads(t), Learns(t), Reacts(t, true, Works, ReadOnly)] + Bounces(t, n - 1)
  }

  /** Where the marker can be read but not written, nothing bounds the attempts. */
  lemma {:induction false} UnwritableMarkerLoops(w: World, t: nat, n: nat)
    requires t in w.tabs && !w.session && !w.signedOut && !w.tabs[t].attempted
    ensures AttemptsIn(w, Bounces(t, n)) == n
    decreases n
  {
    if n > 0 {
      var rest := Bounces(t, n - 1);
      var react := Reacts(t, true, Works, ReadOnly);
      var w1 := Next(w, Loads(t));
      var w2 := Next(w1, Learns(t));
      var w3 := Next(w2, react);
      assert Attempts(w2, react);
      UnwritableMarkerLoops(w3, t, n - 1);
      var s2 := [react] + rest;
      var s1 := [Learns(t)] + s2;
      var s0 := [Loads(t)] + s1;
      assert s0 == Bounces(t, n);
      assert s0[1..] == s1 && s1[1..] == s2 && s2[1..] == rest;
      assert AttemptsIn(w2, s2) == 1 + (n - 1);
      assert AttemptsIn(w1, s1) == n;
    }
  }
}
