/**
 Browser fallback selection (`SASFormAutomator.setup_driver`): build the list
 of browsers to try from the user's choice, try them in order, keep the first
 that starts, and raise with the last error when none does. Starting a
 browser is an oracle: for each browser name it either yields a live session
 or the error it raised.
 */
module BrowserSetup {
  import opened Optional

  /** What starting one browser's driver did: a live session, identified by a
      number, or the text of the exception it raised. */
  datatype Launch = Launched(session: nat) | LaunchFailed(error: string)

  /** The automator's two browser fields: the driver (None until a browser
      starts) and the display name of the browser in use. */
  datatype Fields = Fields(driver: Option<nat>, browserName: Option<string>)

  /** The fields after one attempt, and the error it raised, if any. */
  datatype TryOutcome = TryOutcome(fields: Fields, error: Option<string>)

  /** The fields after the whole setup, and the error it raised, if any. */
  datatype SetupResult = SetupResult(fields: Fields, raised: Option<string>)

  const AutoOrder: seq<string> := ["chrome", "edge", "firefox"]

  /** The browsers to try: chrome, edge and firefox for "auto", otherwise just
      the choice itself. */
  function TryList(choice: string): (r: seq<string>)
    ensures |r| >= 1
    ensures choice == "auto" ==> r == ["chrome", "edge", "firefox"]
    ensures choice != "auto" ==> r == [choice]
  {
    if choice == "auto" then AutoOrder else [choice]
  }

  /** The names the setup has a branch for. */
  predicate Recognised(b: string)
  {
    b == "chrome" || b == "firefox" || b == "edge"
  }

  function DisplayName(b: string): (r: string)
    requires Recognised(b)
  {
    if b == "chrome" then "Chrome" else if b == "firefox" then "Firefox" else "Edge"
  }

  /** One pass of the loop body for browser `b`. Chrome and Edge set the driver
      and the name together; Firefox sets the driver first and then maximises
      the window, so a failing maximise leaves the new driver in place without
      a name. A name with no branch changes nothing and raises nothing. */
  function TryBrowser(b: string, launch: string -> Launch, maximize: nat -> Option<string>,
                      f: Fields): (a: TryOutcome)
    ensures !Recognised(b) ==> a == TryOutcome(f, None)
    ensures Recognised(b) && launch(b).LaunchFailed? ==> a == TryOutcome(f, Some(launch(b).error))
    ensures a.error.None? && Recognised(b) ==>
      a.fields == Fields(Some(launch(b).session), Some(DisplayName(b)))
  {
    if b == "chrome" || b == "edge" then
      match launch(b)
      case Launched(s) => TryOutcome(Fields(Some(s), Some(DisplayName(b))), None)
      case LaunchFailed(e) => TryOutcome(f, Some(e))
    else if b == "firefox" then
      match launch(b)
      case Launched(s) =>
        (match maximize(s)
         case None => TryOutcome(Fields(Some(s), Some("Firefox")), None)
         case Some(e) => TryOutcome(f.(driver := Some(s)), Some(e)))
      case LaunchFailed(e) => TryOutcome(f, Some(e))
    else
      TryOutcome(f, None)
  }

  /** The error raised when every attempt failed. */
  function FailureMessage(lastError: Option<string>): string
  {
    "Failed to launch any browser. Last error: " + (if lastError.Some? then lastError.value else "None")
  }

  /** The walk over the browsers still to try, given the fields and the last
      error so far. */
  function Walk(bs: seq<string>, launch: string -> Launch, maximize: nat -> Option<string>,
                f: Fields, lastError: Option<string>): SetupResult
    decreases |bs|
  {
    if bs == [] then SetupResult(f, Some(FailureMessage(lastError)))
    else
      var a := TryBrowser(bs[0], launch, maximize, f);
      if a.error.None? then SetupResult(a.fields, None)
      else Walk(bs[1..], launch, maximize, a.fields, a.error)
  }

  /** `setup_driver` for a given choice, starting from the fields `f`. */
  function Setup(choice: string, launch: string -> Launch, maximize: nat -> Option<string>,
                 f: Fields): SetupResult
  {
    Walk(TryList(choice), launch, maximize, f, None)
  }

  /** Whether an attempt at `b` raises; it does not depend on the fields. */
  predicate Fails(b: string, launch: string -> Launch, maximize: nat -> Option<string>)
  {
    Recognised(b) &&
    (launch(b).LaunchFailed? || (b == "firefox" && maximize(launch(b).session).Some?))
  }

  lemma TryBrowserFails(b: string, launch: string -> Launch, maximize: nat -> Option<string>, f: Fields)
    ensures TryBrowser(b, launch, maximize, f).error.Some? <==> Fails(b, launch, maximize)
  {
  }

  /** The walk raises exactly when every browser on the list fails, and then
      its error names the error of the last browser tried. */
  lemma {:induction false} WalkRaisesIffAllFail(bs: seq<string>, launch: string -> Launch,
                                                maximize: nat -> Option<string>,
                                                f: Fields, lastError: Option<string>)
    requires bs != []
    ensures Walk(bs, launch, maximize, f, lastError).raised.Some? <==>
      forall i :: 0 <= i < |bs| ==> Fails(bs[i], launch, maximize)
    ensures Walk(bs, launch, maximize, f, lastError).raised.Some? ==>
      Walk(bs, launch, maximize, f, lastError).raised ==
        Some(FailureMessage(TryBrowser(bs[|bs| - 1], launch, maximize, f).error))
    decreases |bs|
  {
    var a := TryBrowser(bs[0], launch, maximize, f);
    TryBrowserFails(bs[0], launch, maximize, f);
    if a.error.Some? && |bs| > 1 {
      WalkRaisesIffAllFail(bs[1..], launch, maximize, a.fields, a.error);
      TryBrowserErrorIndependent(bs[|bs| - 1], launch, maximize, f, a.fields);
      assert bs[1..][|bs[1..]| - 1] == bs[|bs| - 1];
      forall i | 1 <= i < |bs| ensures bs[i] == bs[1..][i - 1] { }
    }
  }

  lemma TryBrowserErrorIndependent(b: string, launch: string -> Launch,
                                   maximize: nat -> Option<string>, f: Fields, g: Fields)
    ensures TryBrowser(b, launch, maximize, f).error == TryBrowser(b, launch, maximize, g).error
  {
  }

  /** The walk stops at the first browser that starts: if every browser before
      position k fails and the browser at k is recognised and starts, the walk
      raises nothing and ends with that browser's session and display name. */
  lemma {:induction false} WalkFirstSuccess(bs: seq<string>, launch: string -> Launch,
                                            maximize: nat -> Option<string>,
                                            f: Fields, lastError: Option<string>, k: nat)
    requires k < |bs| && Recognised(bs[k]) && !Fails(bs[k], launch, maximize)
    requires forall i :: 0 <= i < k ==> Fails(bs[i], launch, maximize)
    ensures Walk(bs, launch, maximize, f, lastError) ==
      SetupResult(Fields(Some(launch(bs[k]).session), Some(DisplayName(bs[k]))), None)
    decreases k
  {
    var a := TryBrowser(bs[0], launch, maximize, f);
    TryBrowserFails(bs[0], launch, maximize, f);
    if k > 0 {
      forall i | 0 <= i < k - 1 ensures Fails(bs[1..][i], launch, maximize) {
        assert bs[1..][i] == bs[i + 1];
      }
      WalkFirstSuccess(bs[1..], launch, maximize, a.fields, a.error, k - 1);
    }
  }

  /** The whole of "auto": Chrome if it starts; else Edge if it starts; else
      Firefox if it starts and maximises; otherwise the error carrying
      Firefox's error. */
  lemma SetupAuto(launch: string -> Launch, maximize: nat -> Option<string>, f: Fields)
    ensures var r := Setup("auto", launch, maximize, f);
      if launch("chrome").Launched? then
        r == SetupResult(Fields(Some(launch("chrome").session), Some("Chrome")), None)
      else if launch("edge").Launched? then
        r == SetupResult(Fields(Some(launch("edge").session), Some("Edge")), None)
      else if !Fails("firefox", launch, maximize) then
        r == SetupResult(Fields(Some(launch("firefox").session), Some("Firefox")), None)
      else
        r.raised == Some(FailureMessage(TryBrowser("firefox", launch, maximize, f).error))
  {
    var bs := TryList("auto");
    assert bs[0] == "chrome" && bs[1] == "edge" && bs[2] == "firefox";
    if launch("chrome").Launched? {
      WalkFirstSuccess(bs, launch, maximize, f, None, 0);
    } else if launch("edge").Launched? {
      WalkFirstSuccess(bs, launch, maximize, f, None, 1);
    } else if !Fails("firefox", launch, maximize) {
      WalkFirstSuccess(bs, launch, maximize, f, None, 2);
    } else {
      WalkRaisesIffAllFail(bs, launch, maximize, f, None);
    }
  }

  /** A choice that is neither "auto" nor a browser with a branch raises
      nothing and leaves both fields as they were. */
  lemma SetupUnrecognised(choice: string, launch: string -> Launch,
                          maximize: nat -> Option<string>, f: Fields)
    requires choice != "auto" && !Recognised(choice)
    ensures Setup(choice, launch, maximize, f) == SetupResult(f, None)
  {
  }

  /** A Firefox that starts but fails to maximise leaves its driver in the
      driver field, keeps the old browser name, and the setup raises. */
  lemma SetupFirefoxMaximizeFails(launch: string -> Launch, maximize: nat -> Option<string>,
                                  f: Fields)
    requires launch("firefox").Launched? && maximize(launch("firefox").session).Some?
    ensures Setup("firefox", launch, maximize, f) ==
      SetupResult(f.(driver := Some(launch("firefox").session)),
                  Some(FailureMessage(maximize(launch("firefox").session))))
  {
    var bs := TryList("firefox");
    assert bs == ["firefox"] && bs[1..] == [];
    var a := TryBrowser("firefox", launch, maximize, f);
    assert a == TryOutcome(f.(driver := Some(launch("firefox").session)),
                        maximize(launch("firefox").session));
  }
}
