/** The dynamic rules of the browser's declarative network-request engine, as
    `updateRedirectRule` (background.js:469-538) builds them, and the engine's
    rule table, kept here as a map from rule id to rule.

    `updateDynamicRules({addRules, removeRuleIds})` removes the given ids and
    then adds the given rules; the engine refuses the whole update when two
    added rules share an id or an added id is still present after the removal
    (`Accepted`). Every update the extension issues is accepted (`InstallPair`,
    `RemovePair`, `RemoveAll`, `RefreshHeaders`). */
module Rules {
  import opened Text
  import opened Compiler

  /** A captured request header, `{name, value}`. */
  datatype Header = Header(name: string, value: string)

  /** One entry of a modifyHeaders action, `{header, value, operation}`. */
  datatype HeaderOperation = HeaderOperation(header: string, value: string, operation: string)

  datatype Action =
    | Redirect(regexSubstitution: string)
    | ModifyHeaders(requestHeaders: seq<HeaderOperation>)

  datatype Condition = Condition(regexFilter: string, requestMethods: seq<string>, resourceTypes: seq<string>)

  datatype Rule = Rule(id: int, priority: int, action: Action, condition: Condition)

  /** The engine's dynamic rules, by id. */
  type RuleTable = map<int, Rule>

  const XmlHttpRequest: string := "xmlhttprequest"

  /** What `getToken` gives for a domain with no stored headers (background.js:545-550). */
  const DefaultToken: seq<Header> := [Header("Authorization", "")]

  /** `getToken(domain)`: the headers stored for the domain, else the default. */
  function GetToken(tokens: map<string, seq<Header>>, domain: string): (hs: seq<Header>)
    ensures domain in tokens ==> hs == tokens[domain]
    ensures domain !in tokens ==> SetOperations(hs) == [HeaderOperation("Authorization", "", "set")]
  {
    if domain in tokens then tokens[domain] else DefaultToken
  }

  /** `headers.map(h => ({header: h.name, value: h.value, operation: "set"}))`. */
  function SetOperations(hs: seq<Header>): seq<HeaderOperation> {
    seq(|hs|, i requires 0 <= i < |hs| => HeaderOperation(hs[i].name, hs[i].value, "set"))
  }

  /** The redirect rule of a record: id and priority `id` (background.js:489-503). */
  function RedirectRule(id: int, regexFilter: string, substitution: string, httpMethod: string): Rule {
    Rule(id, id, Redirect(substitution), Condition(regexFilter, [ToLower(httpMethod)], [XmlHttpRequest]))
  }

  /** The header rule of a record: id and priority `id + 1` (background.js:509-525). */
  function HeaderRule(id: int, regexFilter: string, headers: seq<Header>, httpMethod: string): Rule {
    Rule(id + 1, id + 1, ModifyHeaders(SetOperations(headers)), Condition(regexFilter, [ToLower(httpMethod)], [XmlHttpRequest]))
  }

  // ---------------------------------------------------------------------------
  // The engine's update

  /** The rules of `add` put in the table, one after the other. */
  function AddRules(t: RuleTable, add: seq<Rule>): RuleTable
    decreases |add|
  {
    if add == [] then t else AddRules(t[add[0].id := add[0]], add[1..])
  }

  /** `updateDynamicRules({addRules: add, removeRuleIds: removeIds})` on an
      accepted update: remove, then add. */
  function ApplyUpdate(t: RuleTable, add: seq<Rule>, removeIds: set<int>): RuleTable {
    AddRules(t - removeIds, add)
  }

  /** The engine accepts an update when the added ids are distinct and none of
      them is still in the table after the removal. */
  predicate Accepted(t: RuleTable, add: seq<Rule>, removeIds: set<int>) {
    && (forall i, j :: 0 <= i < j < |add| ==> add[i].id != add[j].id)
    && (forall i :: 0 <= i < |add| ==> add[i].id !in t || add[i].id in removeIds)
  }

  /** Every rule is stored under its own id. */
  predicate KeyedById(t: RuleTable) {
    forall k | k in t :: t[k].id == k
  }

  lemma {:induction false} AddRulesKeyed(t: RuleTable, add: seq<Rule>)
    requires KeyedById(t)
    ensures KeyedById(AddRules(t, add))
    decreases |add|
  {
    if add != [] {
      AddRulesKeyed(t[add[0].id := add[0]], add[1..]);
    }
  }

  /** An update keeps every rule under its own id. */
  lemma ApplyUpdateKeyed(t: RuleTable, add: seq<Rule>, removeIds: set<int>)
    requires KeyedById(t)
    ensures KeyedById(ApplyUpdate(t, add, removeIds))
  {
    AddRulesKeyed(t - removeIds, add);
  }

  // ---------------------------------------------------------------------------
  // Installing and removing a record's pair of rules

  /** The single update of background.js:528-531: add the redirect rule `id`
      and the header rule `id + 1`, removing whatever had those ids. The
      result holds both, and every other rule is untouched. */
  function InstallPair(t: RuleTable, id: int, from: string, to: string, httpMethod: string, headers: seq<Header>): (r: RuleTable)
    ensures Accepted(t, [RedirectRule(id, CompilePattern(from), Template(to), httpMethod),
                         HeaderRule(id, CompilePattern(to), headers, httpMethod)], {id, id + 1})
    ensures r.Keys == t.Keys + {id, id + 1}
    ensures r[id] == RedirectRule(id, CompilePattern(from), Template(to), httpMethod)
    ensures r[id + 1] == HeaderRule(id, CompilePattern(to), headers, httpMethod)
    ensures forall k | k in t && k != id && k != id + 1 :: r[k] == t[k]
  {
    var redirect := RedirectRule(id, CompilePattern(from), Template(to), httpMethod);
    var header := HeaderRule(id, CompilePattern(to), headers, httpMethod);
    assert AddRules(t - {id, id + 1}, [redirect, header])
        == AddRules((t - {id, id + 1})[id := redirect], [header])
        == (t - {id, id + 1})[id := redirect][id + 1 := header];
    ApplyUpdate(t, [redirect, header], {id, id + 1})
  }

  /** Installing the same pair twice gives the table of installing it once:
      no duplicate rules and no growth. */
  lemma InstallPairIdempotent(t: RuleTable, id: int, from: string, to: string, httpMethod: string, headers: seq<Header>)
    ensures InstallPair(InstallPair(t, id, from, to, httpMethod, headers), id, from, to, httpMethod, headers)
         == InstallPair(t, id, from, to, httpMethod, headers)
  {
    var once := InstallPair(t, id, from, to, httpMethod, headers);
    var twice := InstallPair(once, id, from, to, httpMethod, headers);
    assert twice.Keys == once.Keys;
    forall k | k in once ensures twice[k] == once[k] {
    }
  }

  /** `removeRedirectRule(id)` and the removal of `DeleteRedirect`
      (background.js:330-332, 349-350): rules `id` and `id + 1` go, all others
      stay. */
  function RemovePair(t: RuleTable, id: int): (r: RuleTable)
    ensures Accepted(t, [], {id, id + 1})
    ensures r.Keys == t.Keys - {id, id + 1}
    ensures forall k | k in r :: r[k] == t[k]
  {
    ApplyUpdate(t, [], {id, id + 1})
  }

  /** The update of background.js:376-381, which removes the id of every
      installed rule: the table is left empty. */
  function RemoveAll(t: RuleTable): (r: RuleTable)
    ensures Accepted(t, [], t.Keys)
    ensures r == map[]
  {
    ApplyUpdate(t, [], t.Keys)
  }

  // ---------------------------------------------------------------------------
  // Refreshing the header rules of a domain (background.js:106-120, 206-221)

  /** `getDomainModifyHeadersRule(domain)`: the ids of the modifyHeaders rules
      whose id is one more than the id of a rule whose filter, with every
      backslash deleted, contains the domain. */
  function HeaderRuleIds(t: RuleTable, domain: string): (ids: set<int>)
    ensures ids <= t.Keys
    ensures forall k | k in ids :: t[k].action.ModifyHeaders? && Companion(t, domain, k)
    ensures forall k | k in t && t[k].action.ModifyHeaders? && Companion(t, domain, k) :: k in ids
  {
    set k | k in t && t[k].action.ModifyHeaders? && Companion(t, domain, k)
  }

  /** Some rule with id `k - 1` has a filter that mentions the domain. */
  predicate Companion(t: RuleTable, domain: string, k: int) {
    exists j | j in t :: t[j].id + 1 == k && Contains(StripBackslashes(t[j].condition.regexFilter), domain)
  }

  /** A rule whose headers are replaced by `hs` (background.js:109-113). */
  function WithHeaders(r: Rule, hs: seq<Header>): Rule {
    r.(action := ModifyHeaders(SetOperations(hs)))
  }

  /** The table after the header rules `ids` have had their headers replaced
      by `hs`, one update per rule. */
  function RefreshHeaders(t: RuleTable, ids: set<int>, hs: seq<Header>): (r: RuleTable)
    ensures r.Keys == t.Keys
  {
    map k | k in t :: if k in ids then WithHeaders(t[k], hs) else t[k]
  }

  /** One update of the loop of background.js:108-120 refreshes one more rule;
      the engine accepts it. */
  lemma RefreshStep(t: RuleTable, done: set<int>, k: int, hs: seq<Header>)
    requires KeyedById(t) && k in t && k !in done
    ensures Accepted(RefreshHeaders(t, done, hs), [WithHeaders(t[k], hs)], {k})
    ensures ApplyUpdate(RefreshHeaders(t, done, hs), [WithHeaders(t[k], hs)], {k})
         == RefreshHeaders(t, done + {k}, hs)
  {
    var before := RefreshHeaders(t, done, hs);
    var x := WithHeaders(t[k], hs);
    var after := ApplyUpdate(before, [x], {k});
    assert x.id == k;
    assert [x][1..] == [];
    assert after == AddRules((before - {k})[k := x], []);
    var want := RefreshHeaders(t, done + {k}, hs);
    assert after.Keys == want.Keys;
    forall j | j in after ensures after[j] == want[j] {
    }
  }

  /** A refresh of header rules finds the same header rules for every domain
      afterwards: ids, filters and action kinds stay. */
  lemma RefreshKeepsHeaderRuleIds(t: RuleTable, ids: set<int>, hs: seq<Header>, domain: string)
    requires forall k | k in ids && k in t :: t[k].action.ModifyHeaders?
    ensures HeaderRuleIds(RefreshHeaders(t, ids, hs), domain) == HeaderRuleIds(t, domain)
  {
    var u := RefreshHeaders(t, ids, hs);
    forall k | k in u && Companion(u, domain, k) ensures Companion(t, domain, k) {
      var j :| j in u && u[j].id + 1 == k && Contains(StripBackslashes(u[j].condition.regexFilter), domain);
      assert t[j].id == u[j].id && t[j].condition == u[j].condition;
    }
    forall k | k in t && Companion(t, domain, k) ensures Companion(u, domain, k) {
      var j :| j in t && t[j].id + 1 == k && Contains(StripBackslashes(t[j].condition.regexFilter), domain);
      assert t[j].id == u[j].id && t[j].condition == u[j].condition;
    }
  }

  /** A refresh keeps every rule under its own id. */
  lemma RefreshKeyed(t: RuleTable, ids: set<int>, hs: seq<Header>)
    requires KeyedById(t)
    ensures KeyedById(RefreshHeaders(t, ids, hs))
  {
  }

  /** A refresh changes nothing but the headers of the chosen rules: ids,
      priorities and conditions stay, so it never removes or adds a rule. */
  lemma RefreshKeepsConditions(t: RuleTable, ids: set<int>, hs: seq<Header>)
    ensures forall k | k in t ::
      && RefreshHeaders(t, ids, hs)[k].id == t[k].id
      && RefreshHeaders(t, ids, hs)[k].priority == t[k].priority
      && RefreshHeaders(t, ids, hs)[k].condition == t[k].condition
    ensures forall k | k in t && k in ids :: RefreshHeaders(t, ids, hs)[k].action == ModifyHeaders(SetOperations(hs))
    ensures forall k | k in t && k !in ids :: RefreshHeaders(t, ids, hs)[k] == t[k]
  {
  }

  /** The round trip the domain lookup relies on: once a pair is installed for
      a source URL without `#` or `\` that contains the domain, the pair's
      header rule is among the rules refreshed for that domain, and a refresh
      with captured headers puts exactly those headers on it. */
  lemma InstalledPairFoundForDomain(t: RuleTable, id: int, from: string, to: string, httpMethod: string,
                                    headers: seq<Header>, domain: string, captured: seq<Header>)
    requires '#' !in from && '\\' !in from
    requires Contains(from, domain)
    ensures var u := InstallPair(t, id, from, to, httpMethod, headers);
      && id + 1 in HeaderRuleIds(u, domain)
      && RefreshHeaders(u, HeaderRuleIds(u, domain), captured)[id + 1].action == ModifyHeaders(SetOperations(captured))
  {
    var u := InstallPair(t, id, from, to, httpMethod, headers);
    PatternStripRoundTrip(from);
    ContainsInfix("^", from, "$", domain);
    assert StripBackslashes(u[id].condition.regexFilter) == "^" + from + "$";
    assert Companion(u, domain, id + 1);
  }

  /** The other direction: with every rule under its own id, the header rule
      of a freshly installed pair is found for a domain exactly when the
      anchored source URL contains the domain. A capture for a domain the
      source URL does not mention leaves the pair alone. */
  lemma InstalledPairFoundIff(t: RuleTable, id: int, from: string, to: string, httpMethod: string,
                              headers: seq<Header>, domain: string)
    requires KeyedById(t)
    requires '#' !in from && '\\' !in from
    ensures id + 1 in HeaderRuleIds(InstallPair(t, id, from, to, httpMethod, headers), domain)
        <==> Contains("^" + from + "$", domain)
  {
    var u := InstallPair(t, id, from, to, httpMethod, headers);
    PatternStripRoundTrip(from);
    assert StripBackslashes(u[id].condition.regexFilter) == "^" + from + "$";
    if id + 1 in HeaderRuleIds(u, domain) {
      var j :| j in u && u[j].id + 1 == id + 1 && Contains(StripBackslashes(u[j].condition.regexFilter), domain);
      assert j == id;
    } else if Contains("^" + from + "$", domain) {
      assert Companion(u, domain, id + 1);
    }
  }
}
