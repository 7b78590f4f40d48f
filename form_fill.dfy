/**
 Filling one form (`SASFormAutomator.fill_form`) once a browser is running:
 open the record's certificate link, type first name, last name and email
 into the first three text inputs, click the Yes or No badge radio, click
 Submit, and turn the attempt into an outcome record. The page is an oracle
 that says how many text inputs it shows and which step, if any, raises.
 */
module FormFill {
  import opened Optional
  import opened PyValues
  import opened RowReader

  /** The browser calls an attempt makes, in order. */
  datatype Action =
    | Navigate(url: string)
    | Type(input: nat, text: string)
    | ClickRadio(target: string)
    | ClickSubmit
    | Screenshot(file: string)

  /** Typing into text input `input` raised `error`. */
  datatype TypingFault = TypingFault(input: nat, error: string)

  /** The page as the attempt meets it: the error opening the link or waiting
      for a text input raised, how many text inputs there are, where typing
      raised, and the error waiting for the badge radio or for the Submit
      button raised. */
  datatype Page = Page(
    loadError: Option<string>,
    textInputs: nat,
    typingFault: Option<TypingFault>,
    radioError: Option<string>,
    submitError: Option<string>)

  /** The dictionary `fill_form` returns. */
  datatype Outcome = Outcome(
    email: string,
    firstName: string,
    lastName: string,
    certificationName: string,
    status: string,
    message: string)

  /** The actions of an attempt and the error that ended it, if any. */
  datatype Run = Run(actions: seq<Action>, error: Option<string>)

  datatype FillResult = FillResult(outcome: Outcome, actions: seq<Action>)

  /** The error the attempt raises when the driver is still None. */
  const NoDriverError: string := "'NoneType' object has no attribute 'get'"

  /** The radio value to click: "Y#1" for a yes badge, "N#2" for anything else. */
  function RadioTarget(badgeOptIn: string): (r: string)
    ensures r == "Y#1" <==> badgeOptIn == "yes"
    ensures r == "Y#1" || r == "N#2"
  {
    if badgeOptIn == "yes" then "Y#1" else "N#2"
  }

  /** What goes into text inputs 0, 1 and 2. */
  function FieldValues(st: Student): seq<string>
  {
    [st.firstName, st.lastName, st.email]
  }

  /** Typing into the first `n` text inputs, in order. */
  function Typed(st: Student, n: nat): (r: seq<Action>)
    requires n <= 3
    ensures |r| == n
    ensures forall j :: 0 <= j < n ==> r[j] == Type(j, FieldValues(st)[j])
  {
    if n == 0 then [] else Typed(st, n - 1) + [Type(n - 1, FieldValues(st)[n - 1])]
  }

  /** The message when the page shows fewer than three text inputs. */
  function TooFewInputsError(n: nat): string
  {
    "Expected at least 3 text fields, found: " + IntToDecimal(n)
  }

  /** One attempt on a running browser, stopping at the first step that raises. */
  function Attempt(st: Student, page: Page): (r: Run)
  {
    var open := [Navigate(st.certificationLink)];
    if page.loadError.Some? then Run(open, page.loadError)
    else if page.textInputs < 3 then Run(open, Some(TooFewInputsError(page.textInputs)))
    else if page.typingFault.Some? && page.typingFault.value.input < 3 then
      Run(open + Typed(st, page.typingFault.value.input), Some(page.typingFault.value.error))
    else
      var typed := open + Typed(st, 3);
      if page.radioError.Some? then Run(typed, page.radioError)
      else
        var clicked := typed + [ClickRadio(RadioTarget(st.badgeOptIn))];
        if page.submitError.Some? then Run(clicked, page.submitError)
        else Run(clicked + [ClickSubmit], None)
  }

  /** The outcome record of an attempt that ended with `error`, or succeeded. */
  function OutcomeOf(st: Student, error: Option<string>): Outcome
  {
    if error.None? then
      Outcome(st.email, st.firstName, st.lastName, st.certificationName,
              "Success", "Completed successfully")
    else
      Outcome(st.email, st.firstName, st.lastName, st.certificationName,
              "Failed", "Failed: " + error.value)
  }

  /** `str.replace('@', '_')`. */
  function ReplaceAt(s: string): (r: string)
    ensures |r| == |s|
    ensures forall i :: 0 <= i < |s| ==> r[i] == (if s[i] == '@' then '_' else s[i])
  {
    seq(|s|, i requires 0 <= i < |s| => if s[i] == '@' then '_' else s[i])
  }

  /** The diagnostic screenshot's file name for a failed record. */
  function ScreenshotName(email: string): string
  {
    "ERROR_" + ReplaceAt(email) + ".png"
  }

  /** `fill_form` after any setup: `hasDriver` says whether the driver field
      holds a driver, `setupError` is the error the setup raised, if any. On
      failure a screenshot is taken when there is a driver. */
  function Fill(st: Student, page: Page, hasDriver: bool, setupError: Option<string>): FillResult
  {
    var run :=
      if setupError.Some? then Run([], setupError)
      else if !hasDriver then Run([], Some(NoDriverError))
      else Attempt(st, page);
    var shot := if run.error.Some? && hasDriver then [Screenshot(ScreenshotName(st.email))] else [];
    FillResult(OutcomeOf(st, run.error), run.actions + shot)
  }

  /** The whole page cooperates: nothing raises and there are enough inputs. */
  predicate Cooperative(page: Page)
  {
    page.loadError.None? && page.textInputs >= 3 &&
    (page.typingFault.None? || page.typingFault.value.input >= 3) &&
    page.radioError.None? && page.submitError.None?
  }

  // ---------------------------------------------------------------------
  // Properties of the outcome

  /** Every outcome copies the record's email, names and certificate name; its
      status is "Success" with "Completed successfully" or "Failed" with a
      message that is "Failed: " followed by the error that was raised: the
      setup's error, the error of calling `get` on a missing driver, or the
      error of the step of the attempt that raised. */
  lemma OutcomeShape(st: Student, page: Page, hasDriver: bool, setupError: Option<string>)
    ensures var o := Fill(st, page, hasDriver, setupError).outcome;
      o.email == st.email && o.firstName == st.firstName && o.lastName == st.lastName &&
      o.certificationName == st.certificationName &&
      (o.status == "Success" || o.status == "Failed") &&
      (o.status == "Success" <==> o.message == "Completed successfully") &&
      (o.status == "Failed" ==> |o.message| >= 8 && o.message[..8] == "Failed: ") &&
      (setupError.Some? ==> o.status == "Failed" && o.message == "Failed: " + setupError.value) &&
      (setupError.None? && !hasDriver ==> o.status == "Failed" && o.message == "Failed: " + NoDriverError) &&
      (setupError.None? && hasDriver && o.status == "Failed" ==>
        o.message == "Failed: " + Attempt(st, page).error.value)
  {
    var o := Fill(st, page, hasDriver, setupError).outcome;
    if o.status == "Failed" {
      assert o.message[..8] == "Failed: ";
      assert o.message != "Completed successfully" by {
        assert o.message[0] != "Completed successfully"[0];
      }
    }
  }

  /** The attempt succeeds exactly when setup raised nothing, there is a
      driver and the page cooperates; it then opens the link, types first
      name, last name and email into inputs 0, 1 and 2, clicks the badge radio
      and Submit, and takes no screenshot. */
  lemma SuccessExactly(st: Student, page: Page, hasDriver: bool, setupError: Option<string>)
    ensures var r := Fill(st, page, hasDriver, setupError);
      r.outcome.status == "Success" <==> setupError.None? && hasDriver && Cooperative(page)
    ensures var r := Fill(st, page, hasDriver, setupError);
      r.outcome.status == "Success" ==>
        r.actions == [Navigate(st.certificationLink),
                      Type(0, st.firstName), Type(1, st.lastName), Type(2, st.email),
                      ClickRadio(RadioTarget(st.badgeOptIn)), ClickSubmit]
  {
    var r := Fill(st, page, hasDriver, setupError);
    if setupError.None? && hasDriver && Cooperative(page) {
      var t := Typed(st, 3);
      assert t == [Type(0, st.firstName), Type(1, st.lastName), Type(2, st.email)];
    }
  }

  /** Fewer than three text inputs fail the attempt with the count in the
      message, before anything is typed. */
  lemma TooFewInputsFails(st: Student, page: Page)
    requires page.loadError.None? && page.textInputs < 3
    ensures var r := Fill(st, page, true, None);
      r.outcome.status == "Failed" &&
      r.outcome.message == "Failed: " + ("Expected at least 3 text fields, found: " + IntToDecimal(page.textInputs)) &&
      r.actions == [Navigate(st.certificationLink), Screenshot(ScreenshotName(st.email))]
  {
    var e := TooFewInputsError(page.textInputs);
    assert Attempt(st, page) == Run([Navigate(st.certificationLink)], Some(e));
    FailedAttempt(st, page, [Navigate(st.certificationLink)], e);
  }

  /** An attempt through a running browser that fails with `e` after the
      actions `acts` gives a failed outcome and ends with the screenshot. */
  lemma FailedAttempt(st: Student, page: Page, acts: seq<Action>, e: string)
    requires Attempt(st, page) == Run(acts, Some(e))
    ensures Fill(st, page, true, None) ==
      FillResult(Outcome(st.email, st.firstName, st.lastName, st.certificationName, "Failed", "Failed: " + e),
                 acts + [Screenshot(ScreenshotName(st.email))])
  {
  }

  /** Whatever happens, text input j only ever receives field j of the
      record (first name, last name, email), right after opening the link
      and in input order; only inputs 0 to 2 are typed into. */
  lemma TypingInFieldOrder(st: Student, page: Page, hasDriver: bool, setupError: Option<string>)
    ensures var acts := Fill(st, page, hasDriver, setupError).actions;
      forall k :: 0 <= k < |acts| && acts[k].Type? ==>
        1 <= k <= 3 && acts[k] == Type(k - 1, FieldValues(st)[k - 1])
  {
    var run :=
      if setupError.Some? then Run([], setupError)
      else if !hasDriver then Run([], Some(NoDriverError))
      else Attempt(st, page);
    var acts := Fill(st, page, hasDriver, setupError).actions;
    forall k | 0 <= k < |acts| && acts[k].Type?
      ensures 1 <= k <= 3 && acts[k] == Type(k - 1, FieldValues(st)[k - 1])
    {
      if setupError.None? && hasDriver {
        AttemptTyping(st, page, k);
      }
    }
  }

  lemma AttemptTyping(st: Student, page: Page, k: nat)
    requires k < |Attempt(st, page).actions| && Attempt(st, page).actions[k].Type?
    ensures 1 <= k <= 3 && Attempt(st, page).actions[k] == Type(k - 1, FieldValues(st)[k - 1])
  {
  }

  /** Every radio click targets "Y#1" for a yes badge and "N#2" otherwise. */
  lemma RadioMatchesBadge(st: Student, page: Page, hasDriver: bool, setupError: Option<string>)
    ensures var acts := Fill(st, page, hasDriver, setupError).actions;
      forall k :: 0 <= k < |acts| && acts[k].ClickRadio? ==>
        (acts[k].target == "Y#1" <==> st.badgeOptIn == "yes") &&
        (acts[k].target == "N#2" <==> st.badgeOptIn != "yes")
  {
  }

  /** A screenshot is taken exactly when the attempt failed while a driver is
      present, and then it is the last action. */
  lemma ScreenshotOnFailure(st: Student, page: Page, hasDriver: bool, setupError: Option<string>)
    ensures var r := Fill(st, page, hasDriver, setupError);
      (Screenshot(ScreenshotName(st.email)) in r.actions <==>
        r.outcome.status == "Failed" && hasDriver) &&
      (r.outcome.status == "Failed" && hasDriver ==>
        r.actions[|r.actions| - 1] == Screenshot(ScreenshotName(st.email)))
  {
    var r := Fill(st, page, hasDriver, setupError);
    if setupError.None? && hasDriver {
      var a := Attempt(st, page);
      assert forall k :: 0 <= k < |a.actions| ==> !a.actions[k].Screenshot? by {
        forall k | 0 <= k < |a.actions| ensures !a.actions[k].Screenshot? {
          if a.actions[k].Type? { AttemptTyping(st, page, k); }
        }
      }
    }
  }

  /** The screenshot name keeps the email's length and position of every
      character, with each '@' turned into '_'. */
  lemma ScreenshotNameShape(email: string)
    ensures var n := ScreenshotName(email);
      |n| == |email| + 10 && n[..6] == "ERROR_" && n[|n| - 4..] == ".png" &&
      forall i :: 0 <= i < |email| ==> n[6 + i] != '@' && (email[i] != '@' ==> n[6 + i] == email[i])
  {
  }
}
