/** The install-time example list of `firstTimeSetup` (background.js:14-49),
    as written and with the ids the id scheme intends. */
module Setup {
  import opened Wrappers
  import opened Seqs
  import opened Rules
  import opened Registry
  import opened Sync

  /** The five example records as the install-time setup writes them, with the
      adjacent ids 1 to 5. */
  function SeedAsWritten(): seq<RedirectRecord> {
    [ RedirectRecord("https://redirect-example.com/something", "https://desired-url.com/something/more",
                     false, "GET", 1, None),
      RedirectRecord("https://redirect-to-local-server-example.com/something", "https://localhost:3000/something",
                     false, "POST", 2, None),
      RedirectRecord("https://redirect-multiple-apis-example.com/#", "http://localhost:3000/#",
                     false, "GET", 3, None),
      RedirectRecord("https://placeholder-params-example.com/project/#/tasks?Name=#&number=#",
                     "https://localhost:3000/project/#/tasks?Name=#&number=#",
                     false, "DELETE", 4, None),
      RedirectRecord("https://placeholder-as-regex-example.com/#something/task", "http://localhost:3000/#something/task",
                     false, "GET", 5, None) ]
  }

  /** With adjacent ids the first record's header rule id is the second
      record's redirect rule id, so the list is not spaced. */
  lemma SeedAsWrittenClashes()
    ensures SeedAsWritten()[0].redirectRuleId + 1 == SeedAsWritten()[1].redirectRuleId
    ensures !Spaced(SeedAsWritten())
  {
    assert !Apart(SeedAsWritten()[0], SeedAsWritten()[1]);
  }

  /** Enabling the first two example records as written and switching ON
      leaves the first record without its header rule: rule 2 is the second
      record's redirect rule. */
  lemma SeedAsWrittenLosesHeaderRule(hostOf: string -> Option<string>, tokens: map<string, seq<Header>>)
    requires hostOf(SeedAsWritten()[0].from).Some? && hostOf(SeedAsWritten()[1].from).Some?
    ensures var a := SeedAsWritten()[0].(enabled := true);
            var b := SeedAsWritten()[1].(enabled := true);
            var u := InstallEach(map[], Enabled([a, b]), hostOf, tokens);
      && 2 in u && !u[2].action.ModifyHeaders?
  {
    var a := SeedAsWritten()[0].(enabled := true);
    var b := SeedAsWritten()[1].(enabled := true);
    FilterAll([a, b], (r: RedirectRecord) => r.enabled);
    AdjacentIdsLoseHeaderRule(map[], a, b, hostOf, tokens);
  }

  /** The example records with the odd ids the id scheme intends. */
  function Seed(): seq<RedirectRecord> {
    seq(5, i requires 0 <= i < 5 => SeedAsWritten()[i].(redirectRuleId := 2 * i + 1))
  }

  /** The corrected list holds the records as written, in the same order,
      with only their ids changed. */
  lemma SeedKeepsRecords()
    ensures |Seed()| == |SeedAsWritten()|
    ensures forall i :: 0 <= i < |Seed()| ==> Seed()[i].(redirectRuleId := SeedAsWritten()[i].redirectRuleId) == SeedAsWritten()[i]
  {
  }

  /** The corrected example list is spaced. */
  lemma SeedSpaced()
    ensures Spaced(Seed())
  {
    OddIdsSpaced(Seed());
  }
}
