/**
 * Concrete runs of the model: the behaviours the application documents for
 * particular inputs, stated for exactly those inputs.
 */
module Scenarios {
  import opened Wrappers
  import opened Strings
  import opened Types
  import opened GeminiService
  import LinkList
  import ProspectResult

  // ---------------------------------------------------------------------
  // The prompt
  // ---------------------------------------------------------------------

  /**
   * For "Target" and "Cloud Migration" with empty keywords, the heading the
   * model is told to use names both, carries no context suffix, and is part
   * of the prompt.
   */
  lemma TargetCloudMigrationPrompt()
    ensures
      var inputs := ProspectingFormInputs("Target", "Cloud Migration", Some(""));
      ReportHeading(inputs) == "## " + "Prospect Report for " + "Target" + " focusing on " + "Cloud Migration" &&
      Contains(BuildPrompt(inputs), "Prospect Report for " + "Target" + " focusing on " + "Cloud Migration")
  {
    var inputs := ProspectingFormInputs("Target", "Cloud Migration", Some(""));
    HeadingNamesInputs(inputs);
    PromptInterpolatesInputs(inputs);
    ContainsTrans(BuildPrompt(inputs), ReportHeading(inputs),
      "Prospect Report for " + "Target" + " focusing on " + "Cloud Migration");
  }

  // ---------------------------------------------------------------------
  // The retry loop
  // ---------------------------------------------------------------------

  /** The error of a service that is down. */
  const Down: Outcome := Threw("503 Service Unavailable")

  /** "503 Service Unavailable" is retried, and reported as an overload. */
  lemma DownIsTransientOverload()
    ensures IsTransient("503 Service Unavailable")
    ensures ReportedMessage("503 Service Unavailable") == OverloadedMessage
  {
    var m := "503 Service Unavailable";
    assert ToLower(m)[..3] == "503";
    assert OccursAt(ToLower(m), "503", 0);
    assert OccursAt(m, "503", 0);
  }

  /**
   * A service that always fails transiently is called three times, with
   * sleeps of 1000 and 2000 ms (3000 ms in all, none after the last call),
   * and the request fails with the overload message.
   */
  lemma AlwaysDown(apiKey: Option<string>, outcomes: seq<Outcome>)
    requires Truthy(apiKey) && |outcomes| == MaxRetries
    requires forall k :: 0 <= k < |outcomes| ==> outcomes[k] == Down
    ensures Attempts(apiKey, outcomes) == 3
    ensures Delays(apiKey, outcomes) == [1000, 2000] && Sum(Delays(apiKey, outcomes)) == 3000
    ensures Generate(apiKey, outcomes) == Failure(OverloadedMessage)
  {
    DownIsTransientOverload();
    AllTransientFailures(apiKey, outcomes);
    assert Sum([1000, 2000]) == 1000 + Sum([2000]);
    assert Sum([2000]) == 2000 + Sum([]);
  }

  /** "400 bad request" is not retried and is reported with the generic prefix. */
  lemma BadRequestIsPermanent()
    ensures !IsTransient("400 bad request")
    ensures ReportedMessage("400 bad request") == GenericPrefix + "400 bad request"
  {
    var m := "400 bad request";
    assert ToLower(m) == m;
    AbsentChar(m, "503", 0);
    AbsentChar(m, "unavailable", 3);
    AbsentChar(m, "overloaded", 1);
    assert |NotFoundMarker| > |m| && |MissingKeyMessage| > |m|;
  }

  /** A request rejected as bad is not retried: one call, no sleep, the generic message. */
  lemma BadRequestOnce(apiKey: Option<string>, outcomes: seq<Outcome>)
    requires Truthy(apiKey) && MaxRetries <= |outcomes| && outcomes[0] == Threw("400 bad request")
    ensures Attempts(apiKey, outcomes) == 1 && Delays(apiKey, outcomes) == []
    ensures Generate(apiKey, outcomes) == Failure(GenericPrefix + "400 bad request")
  {
    BadRequestIsPermanent();
    PermanentErrorStops(apiKey, outcomes, 0);
    DelaysClosedForm(outcomes, 1);
  }

  /**
   * Two transient failures and then an answer: three calls, sleeps of 1000
   * and 2000 ms, and the answer is the result; no error surfaces.
   */
  lemma RecoversOnThirdAttempt(apiKey: Option<string>, outcomes: seq<Outcome>, answer: ModelResponse)
    requires Truthy(apiKey) && |outcomes| == MaxRetries
    requires outcomes == [Down, Down, Returned(answer)]
    ensures Attempts(apiKey, outcomes) == 3
    ensures Delays(apiKey, outcomes) == [1000, 2000]
    ensures Generate(apiKey, outcomes) == Success(Normalise(answer))
  {
    DownIsTransientOverload();
    FirstAnswerWins(apiKey, outcomes, 2);
    DelaysClosedForm(outcomes, 3);
    assert Backoff(0) == 1000 && Backoff(1) == 2000;
  }

  /**
   * A falsy answer and then two outages: the first transient failure is on
   * attempt 1, so its sleep is 2000 ms, and the outage on the last attempt
   * sleeps nothing. The sleep follows the attempt's index, not the number
   * of failures before it.
   */
  lemma FirstSleepFollowsAttemptIndex(apiKey: Option<string>, outcomes: seq<Outcome>)
    requires Truthy(apiKey) && outcomes == [ReturnedNothing, Down, Down]
    ensures Attempts(apiKey, outcomes) == 3
    ensures Delays(apiKey, outcomes) == [2000]
    ensures Generate(apiKey, outcomes) == Failure(OverloadedMessage)
  {
    DownIsTransientOverload();
    AttemptCountIs(outcomes, MaxRetries - 1);
    DelaysClosedForm(outcomes, 3);
    assert Backoff(1) == 2000;
  }

  /** Without a key the model is not called and the key problem is reported. */
  lemma NoKeyNoCall(outcomes: seq<Outcome>)
    requires MaxRetries <= |outcomes|
    ensures Attempts(None, outcomes) == 0 && Delays(None, outcomes) == []
    ensures Generate(None, outcomes) == Failure(KeyIssuePrefix + MissingKeyMessage)
  {
    MissingKeyShortCircuits(None, outcomes);
  }

  // ---------------------------------------------------------------------
  // Normalisation and the link list
  // ---------------------------------------------------------------------

  const CitedA: GroundingChunk := GroundingChunk(Some(WebSource(Some("https://a"), Some("A"))))
  const UnlinkedB: GroundingChunk := GroundingChunk(Some(WebSource(None, Some("B"))))

  /**
   * An answer "## Hi" citing an addressed source A and a source B without an
   * address: the report keeps the text and both citations, in order; the
   * link list and the printable copy show A only, under its title.
   */
  lemma HiWithTwoCitations()
    ensures
      var response := ModelResponse("## Hi", Some([Candidate(Some(GroundingMetadata(Some([CitedA, UnlinkedB]))))]));
      var report := Normalise(response);
      report == ProspectReport("## Hi", [CitedA, UnlinkedB]) &&
      LinkList.ValidLinks(report.groundingLinks) == [CitedA] &&
      LinkList.Render(report.groundingLinks) == Some([LinkList.LinkItem("https://a", "A")]) &&
      ProspectResult.PdfSources(report.groundingLinks) ==
        ProspectResult.Section([LinkList.LinkItem("https://a", "A")])
  {
    var links := [CitedA, UnlinkedB];
    var candidate := Candidate(Some(GroundingMetadata(Some(links))));
    assert [candidate] == [candidate] + [];
    NormaliseKeepsCitations("## Hi", links, []);
    assert links == [CitedA] + [UnlinkedB];
    LinkList.ValidLinksAppend([CitedA], [UnlinkedB]);
    LinkList.ValidLinksSingleton(CitedA);
    LinkList.ValidLinksSingleton(UnlinkedB);
    assert LinkList.IsValid(CitedA) && !LinkList.IsValid(UnlinkedB);
    assert LinkList.ValidLinks(links) == [CitedA];
    var items := LinkList.Items([CitedA]);
    assert items[0] == LinkList.ItemFor(CitedA);
    assert LinkList.Label(CitedA) == "A";
    assert items == [LinkList.LinkItem("https://a", "A")];
  }

  // ---------------------------------------------------------------------
  // Bold runs
  // ---------------------------------------------------------------------

  /** A single asterisk is no bold marker: "2 * 3 = 6" is left as it is. */
  lemma LoneStarKept()
    ensures ProspectResult.Embolden("2 * 3 = 6", '*') == "2 * 3 = 6"
  {
    ProspectResult.NoClosingRunUnchanged("2 * 3 = 6", '*');
  }

  /** An opening pair with no closing pair on its line is kept: "**a*b" stays. */
  lemma UnclosedRunKept()
    ensures ProspectResult.Embolden("**a*b", '*') == "**a*b"
  {
    var s := "**a*b";
    assert s[2..] == "a*b";
    assert ProspectResult.CloseAt(s[2..], '*') == None by {
      assert s[2..][1..] == "*b";
      assert s[2..][1..][1..] == "b";
    }
    ProspectResult.NoClosingRunUnchanged(s, '*');
  }

  /** A single asterisk inside a run belongs to it: "**a*b**" becomes one strong element. */
  lemma InnerStarStaysInRun(s: string)
    requires s == "**a*b**"
    ensures ProspectResult.Embolden(s, '*') == "<strong>" + "a*b" + "</strong>"
  {
    var x := "a*b";
    assert ProspectResult.PairFree(x + ['*'], '*');
    assert ProspectResult.PairFree([] + ['*'], '*');
    assert s == [] + ['*', '*'] + x + ['*', '*'] + [];
    ProspectResult.EmboldenPair([], x, [], '*');
    assert ProspectResult.Embolden([], '*') == [];
  }

  /** Text with a single asterisk before a run is copied: "a*b **c**" keeps "a*b ". */
  lemma StarBeforeRun(s: string)
    requires s == "a*b **c**"
    ensures ProspectResult.Embolden(s, '*') == "a*b " + "<strong>" + "c" + "</strong>"
  {
    var a, x := "a*b ", "c";
    assert ProspectResult.PairFree(a + ['*'], '*');
    assert ProspectResult.PairFree(x + ['*'], '*');
    assert s == a + ['*', '*'] + x + ['*', '*'] + [];
    ProspectResult.EmboldenPair(a, x, [], '*');
    assert ProspectResult.Embolden([], '*') == [];
  }
}
