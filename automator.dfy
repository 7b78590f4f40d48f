/**
 The automator object (`SASFormAutomator`): the browser choice it was made
 with and the two fields `setup_driver` and `fill_form` update in place, the
 driver and the name of the browser in use.
 */
module Automator {
  import opened Optional
  import opened RowReader
  import opened BrowserSetup
  import opened FormFill

  class Automator {
    const browserChoice: string
    var driver: Option<nat>
    var browserName: Option<string>
    /** The driver sessions `quit` has been called on, in call order. */
    var quitSessions: seq<nat>

    function State(): Fields
      reads this
    {
      Fields(driver, browserName)
    }

    /** The fields as `__init__` sets them before it starts the browser; the
        caller then runs SetupDriver, as `__init__` does. */
    constructor (choice: string)
      ensures browserChoice == choice
      ensures driver == None && browserName == None && quitSessions == []
    {
      browserChoice := choice;
      driver := None;
      browserName := None;
      quitSessions := [];
    }

    /** `setup_driver`: walks the try-list, keeps the first browser that
        starts, and returns the error it raises when none does. */
    method SetupDriver(launch: string -> Launch, maximize: nat -> Option<string>)
      returns (raised: Option<string>)
      modifies this
      ensures SetupResult(State(), raised) == Setup(browserChoice, launch, maximize, old(State()))
      ensures quitSessions == old(quitSessions)
    {
      var tries := TryList(browserChoice);
      var lastError: Option<string> := None;
      var i := 0;
      while i < |tries|
        invariant 0 <= i <= |tries|
        invariant Walk(tries[i..], launch, maximize, State(), lastError) ==
                  Setup(browserChoice, launch, maximize, old(State()))
        invariant quitSessions == old(quitSessions)
      {
        var browser := tries[i];
        assert tries[i..][0] == browser && tries[i..][1..] == tries[i + 1..];
        if browser == "chrome" {
          var outcome := launch("chrome");
          if outcome.LaunchFailed? {
            lastError := Some(outcome.error);
            i := i + 1;
            continue;
          }
          driver := Some(outcome.session);
          browserName := Some("Chrome");
        } else if browser == "firefox" {
          var outcome := launch("firefox");
          if outcome.LaunchFailed? {
            lastError := Some(outcome.error);
            i := i + 1;
            continue;
          }
          driver := Some(outcome.session);
          var maximized := maximize(outcome.session);
          if maximized.Some? {
            lastError := maximized;
            i := i + 1;
            continue;
          }
          browserName := Some("Firefox");
        } else if browser == "edge" {
          var outcome := launch("edge");
          if outcome.LaunchFailed? {
            lastError := Some(outcome.error);
            i := i + 1;
            continue;
          }
          driver := Some(outcome.session);
          browserName := Some("Edge");
        }
        return None;
      }
      raised := Some(FailureMessage(lastError));
    }

    /** `fill_form`: starts a browser first when there is no driver, then
        makes one attempt on the page and returns the outcome record and the
        browser calls made. */
    method FillForm(st: Student, page: Page, launch: string -> Launch, maximize: nat -> Option<string>)
      returns (r: FillResult)
      modifies this
      ensures var s := if old(driver).Some? then SetupResult(old(State()), None)
                       else Setup(browserChoice, launch, maximize, old(State()));
        State() == s.fields && r == Fill(st, page, driver.Some?, s.raised)
      ensures quitSessions == old(quitSessions)
    {
      var setupError: Option<string> := None;
      if driver.None? {
        setupError := SetupDriver(launch, maximize);
      }
      r := Fill(st, page, driver.Some?, setupError);
    }

    /** `close_driver`: quits the driver when there is one (any error is
        swallowed). The driver field is not cleared, so a later FillForm
        finds a driver, skips the setup and uses the session already quit. */
    method CloseDriver()
      modifies this
      ensures quitSessions == old(quitSessions) + (if old(driver).Some? then [old(driver).value] else [])
      ensures driver == old(driver) && browserName == old(browserName)
    {
      if driver.Some? {
        quitSessions := quitSessions + [driver.value];
      }
    }
  }

  /** A record the reader produced, filled on a cooperative page through a
      running browser, opens its own non-empty certificate link and picks the
      radio that matches its yes-or-no badge. */
  lemma ReadRecordFilled(st: Student, page: Page)
    requires WellFormed(st) && Cooperative(page)
    ensures var r := Fill(st, page, true, None);
      r.outcome.status == "Success" &&
      r.actions[0] == Navigate(st.certificationLink) && st.certificationLink != "" &&
      (st.badgeOptIn == "yes" ==> r.actions[4] == ClickRadio("Y#1")) &&
      (st.badgeOptIn == "no" ==> r.actions[4] == ClickRadio("N#2"))
  {
    SuccessExactly(st, page, true, None);
  }
}
