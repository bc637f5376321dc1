/** The background script's state and handlers (background.js:1-568) as one
    object: the stored `redirects` list, the `onOff` switch, the headers stored
    per domain, the `allDomines` list and the engine's dynamic rule table.
    Storage reads and writes become reads and assignments of these fields;
    `hostOf` is the browser's URL parser (`new URL(url).hostname`), None when
    the URL does not parse. */
module Extension {
  import opened Wrappers
  import opened Text
  import opened Compiler
  import opened Rules
  import opened Registry
  import opened Capture
  import opened Sync

  /** A nonempty set of rule ids has an element. */
  lemma NonEmptyHasElement(s: set<int>)
    requires s != {}
    ensures exists k :: k in s
  {
    if forall k :: k !in s {
      assert false;
    }
  }

  /** Some element of a nonempty set of rule ids. */
  method Pick(s: set<int>) returns (k: int)
    requires s != {}
    ensures k in s
  {
    NonEmptyHasElement(s);
    k :| k in s;
  }

  class Extension {
    var records: seq<RedirectRecord>
    var onOff: string
    var tokens: map<string, seq<Header>>
    var domains: seq<string>
    var rules: RuleTable
    const hostOf: string -> Option<string>

    /** The engine keeps every rule under its own id. */
    ghost predicate Valid()
      reads this
    {
      KeyedById(rules)
    }

    /** A switch stored as OFF has no rule installed. */
    ghost predicate SwitchHolds()
      reads this
    {
      onOff == "OFF" ==> rules == map[]
    }

    /** The extension as first loaded: nothing in storage and no dynamic
        rule. */
    constructor Fresh(hostOf: string -> Option<string>)
      ensures Valid() && SwitchHolds()
      ensures records == [] && onOff == "OFF" && tokens == map[] && domains == [] && rules == map[]
      ensures this.hostOf == hostOf
    {
      this.hostOf := hostOf;
      records := [];
      onOff := "OFF";
      tokens := map[];
      domains := [];
      rules := map[];
    }

    /** `chrome.declarativeNetRequest.updateDynamicRules`: an accepted update
        removes `removeIds` and then adds `add`; a refused one changes nothing. */
    method UpdateDynamicRules(add: seq<Rule>, removeIds: set<int>) returns (ok: bool)
      requires Valid()
      modifies this`rules
      ensures Valid()
      ensures ok == Accepted(old(rules), add, removeIds)
      ensures rules == if ok then ApplyUpdate(old(rules), add, removeIds) else old(rules)
    {
      ok := Accepted(rules, add, removeIds);
      if ok {
        ApplyUpdateKeyed(rules, add, removeIds);
        rules := ApplyUpdate(rules, add, removeIds);
      }
    }

    /** `updateRedirectRule({fromUrl: from, toUrl: to, id, method})`
        (background.js:469-538): compile the two patterns and the template,
        look up the headers stored for the lowercased host, and install both
        rules in one accepted update. */
    method UpdateRedirectRule(from: string, to: string, id: int, httpMethod: string)
      requires Valid()
      modifies this`rules
      ensures Valid()
      ensures rules == InstallRule(old(rules), from, to, id, httpMethod, hostOf, tokens)
    {
      var host := hostOf(from);
      if host.None? {
        return;
      }
      var domainName := ToLower(host.value);
      var fromPattern := CompilePattern(from);
      var headerPattern := CompilePattern(to);
      var substitution := CompileTemplate(to);
      var headers := GetToken(tokens, domainName);
      var redirectRule := RedirectRule(id, fromPattern, substitution, httpMethod);
      var modifyHeadersRule := HeaderRule(id, headerPattern, headers, httpMethod);
      ghost var installed := InstallPair(rules, id, from, to, httpMethod, headers);
      var ok := UpdateDynamicRules([redirectRule, modifyHeadersRule], {id, id + 1});
      assert ok;
    }

    /** `removeRedirectRule(id)` (background.js:330-340): drop the pair. */
    method RemoveRedirectRule(id: int)
      requires Valid()
      modifies this`rules
      ensures Valid()
      ensures rules == RemovePair(old(rules), id)
    {
      ghost var removed := RemovePair(rules, id);
      var ok := UpdateDynamicRules([], {id, id + 1});
      assert ok;
    }

    /** `updateRulesBasedOnOnOFF(state)` (background.js:373-403). */
    method UpdateRulesBasedOnOnOff(state: string)
      requires Valid()
      modifies this`rules
      ensures Valid()
      ensures rules == SwitchEffect(old(rules), state, records, hostOf, tokens)
    {
      if state == "OFF" {
        ghost var cleared := RemoveAll(rules);
        var ok := UpdateDynamicRules([], rules.Keys);
        assert ok;
      } else if state == "ON" {
        var enabled := Enabled(records);
        var i := 0;
        while i < |enabled| && hostOf(enabled[i].from).Some?
          invariant 0 <= i <= |enabled|
          invariant Valid()
          invariant InstallEach(rules, enabled[i..], hostOf, tokens) == InstallEach(old(rules), enabled, hostOf, tokens)
          decreases |enabled| - i
        {
          var r := enabled[i];
          assert enabled[i..][0] == r && enabled[i..][1..] == enabled[i + 1..];
          UpdateRedirectRule(r.from, r.to, r.redirectRuleId, r.httpMethod);
          i := i + 1;
        }
      }
    }

    /** `triggerMainToggleButton(status)` (background.js:405-416): store the
        status, or OFF when it is missing, and apply it to the rules. */
    method TriggerMainToggleButton(status: string)
      requires Valid()
      modifies this`onOff, this`rules
      ensures Valid()
      ensures onOff == if status != "" then status else "OFF"
      ensures rules == SwitchEffect(old(rules), status, records, hostOf, tokens)
      ensures status != "" ==> SwitchHolds()
    {
      onOff := if status != "" then status else "OFF";
      UpdateRulesBasedOnOnOff(status);
    }

    /** `setDomainArr2(domain)` (background.js:556-568). */
    method SetDomainArr2(domain: string)
      modifies this`domains
      ensures domains == AppendIfAbsent(old(domains), domain)
    {
      if domain in domains {
        return;
      }
      domains := domains + [domain];
    }

    /** The storage half of `AddUpdateRedirect` (background.js:425-456): the
        new record goes in front of the list, replacing the records with its
        id on update; the id it gets is returned. */
    method StoreRedirect(from: string, to: string, httpMethod: string, ruleId: Option<int>, now: string)
      returns (id: int)
      modifies this`records
      ensures records == Upsert(old(records), from, to, httpMethod, ruleId, now)
      ensures id == UpsertId(old(records), ruleId)
    {
      id := UpsertId(records, ruleId);
      records := Upsert(records, from, to, httpMethod, ruleId, now);
    }

    /** `AddUpdateRedirect(from, to, method, ruleId)` (background.js:418-466):
        store the record, install its pair when the switch is ON, and register
        the lowercased host of `from`. */
    method AddUpdateRedirect(from: string, to: string, httpMethod: string, ruleId: Option<int>, now: string)
      requires Valid()
      modifies this`records, this`rules, this`domains
      ensures Valid()
      ensures records == Upsert(old(records), from, to, httpMethod, ruleId, now)
      ensures rules == if onOff == "ON"
                       then InstallRule(old(rules), from, to, UpsertId(old(records), ruleId), httpMethod, hostOf, tokens)
                       else old(rules)
      ensures domains == if hostOf(from).Some? then AppendIfAbsent(old(domains), ToLower(hostOf(from).value)) else old(domains)
      ensures old(SwitchHolds()) ==> SwitchHolds()
    {
      var id := StoreRedirect(from, to, httpMethod, ruleId, now);
      if onOff == "ON" {
        UpdateRedirectRule(from, to, id, httpMethod);
      }
      var host := hostOf(from);
      if host.Some? {
        SetDomainArr2(ToLower(host.value));
      }
    }

    /** `DeleteRedirect(id)` (background.js:342-353): drop every record with
        the id and remove its pair, whatever the switch. */
    method DeleteRedirect(id: int)
      requires Valid()
      modifies this`records, this`rules
      ensures Valid()
      ensures records == WithoutId(old(records), id)
      ensures rules == RemovePair(old(rules), id)
      ensures old(SwitchHolds()) ==> SwitchHolds()
    {
      records := WithoutId(records, id);
      var ok := UpdateDynamicRules([], {id, id + 1});
      assert ok;
    }

    /** `EnableDisableRedirect(id, status)` (background.js:312-328): set the
        flag of the first record with the id, then install its pair when the
        status is true and the switch is ON, else remove it. A missing id makes
        `redirects[-1].enabled = status` throw: nothing changes. */
    method EnableDisableRedirect(id: int, status: bool) returns (found: bool)
      requires Valid()
      modifies this`records, this`rules
      ensures Valid()
      ensures found <==> exists r | r in old(records) :: r.redirectRuleId == id
      ensures !found ==> records == old(records) && rules == old(rules)
      ensures found ==>
        var i := FindIndex(old(records), id);
        var r := old(records)[i];
        && records == old(records)[i := r.(enabled := status)]
        && rules == if status && onOff == "ON"
                    then InstallRule(old(rules), r.from, r.to, id, r.httpMethod, hostOf, tokens)
                    else RemovePair(old(rules), id)
      ensures old(SwitchHolds()) ==> SwitchHolds()
    {
      var index := FindIndex(records, id);
      if index < 0 {
        found := false;
        return;
      }
      found := true;
      records := records[index := records[index].(enabled := status)];
      var redirect := records[index];
      if status && onOff == "ON" {
        UpdateRedirectRule(redirect.from, redirect.to, redirect.redirectRuleId, redirect.httpMethod);
      } else {
        RemoveRedirectRule(redirect.redirectRuleId);
      }
    }

    /** `reSyncRedirects()` (background.js:355-371), its four iterations run
        one after the other: each sets every record's flag to
        `btn === 'Enable All'` and switches the rules with
        `btn !== 'Enable All' || onOff == 'OFF' ? 'OFF' : 'ON'`. No `btn` is
        `'Enable All'`, so every record ends disabled and the table empty. */
    method ReSyncRedirects()
      requires Valid()
      modifies this`records, this`rules
      ensures Valid() && SwitchHolds()
      ensures records == DisableAll(old(records))
      ensures rules == map[]
    {
      var buttons := ["ON", "OFF", "ON", "OFF"];
      ghost var original := records;
      for b := 0 to |buttons|
        invariant Valid()
        invariant b == 0 ==> records == original
        invariant b > 0 ==> records == DisableAll(original) && rules == map[]
      {
        var btn := buttons[b];
        assert btn != "Enable All";
        var flag := btn == "Enable All";
        ghost var before := records;
        ghost var rulesBefore := rules;
        for j := 0 to |records|
          invariant rules == rulesBefore
          invariant |records| == |before|
          invariant forall k :: 0 <= k < j ==> records[k] == before[k].(enabled := flag)
          invariant forall k :: j <= k < |records| ==> records[k] == before[k]
        {
          records := records[j := records[j].(enabled := flag)];
        }
        assert records == SetAllEnabled(before, false);
        DisableAllIdempotent(original);
        UpdateRulesBasedOnOnOff(if btn != "Enable All" || onOff == "OFF" then "OFF" else "ON");
      }
    }

    /** The loop of background.js:108-120 for one domain: the domain's header
        rules, found by `getDomainModifyHeadersRule` (background.js:206-221)
        in one snapshot of the table, each get the headers `hs`. */
    method RefreshHeaderRules(domain: string, hs: seq<Header>)
      requires Valid()
      modifies this`rules
      ensures Valid()
      ensures rules == RefreshHeaders(old(rules), HeaderRuleIds(old(rules), domain), hs)
    {
      var ids := HeaderRuleIds(rules, domain);
      RefreshRules(ids, hs);
    }

    /** The rules `ids` of the current table each get the headers `hs`, one
        update per rule. */
    method RefreshRules(ids: set<int>, hs: seq<Header>)
      requires Valid() && ids <= rules.Keys
      modifies this`rules
      ensures Valid()
      ensures rules == RefreshHeaders(old(rules), ids, hs)
    {
      var snapshot := rules;
      var todo := ids;
      ghost var done: set<int> := {};
      while todo != {}
        invariant todo + done == ids && todo !! done
        invariant rules == RefreshHeaders(snapshot, done, hs)
        decreases |todo|
      {
        var k := Pick(todo);
        RefreshStep(snapshot, done, k, hs);
        RefreshKeyed(snapshot, done, hs);
        var ok := UpdateDynamicRules([WithHeaders(snapshot[k], hs)], {k});
        assert ok;
        todo := todo - {k};
        done := done + {k};
      }
      RefreshKeyed(snapshot, done, hs);
    }

    /** The `onBeforeSendHeaders` listener (background.js:83-123) for an
        XMLHttpRequest, the only type it is registered for (background.js:124-127),
        with method `httpMethod`, URL `url` and headers `requestHeaders`:
        non-GET requests change nothing; otherwise the domain list is pruned
        and each listed domain the request's host contains gets the token
        headers stored and put on its header rules, the whole listener ending
        at the first such domain when there are none. */
    method OnBeforeSendHeaders(httpMethod: string, url: string, requestHeaders: seq<Header>)
      requires Valid()
      modifies this`domains, this`tokens, this`rules
      ensures Valid()
      ensures !IsGet(httpMethod) ==> domains == old(domains) && tokens == old(tokens) && rules == old(rules)
      ensures IsGet(httpMethod) ==>
        && domains == LatestDomains(old(domains), records)
        && Store(tokens, rules)
           == CaptureEach(Store(old(tokens), old(rules)), domains, hostOf(url), TokenHeaders(requestHeaders))
      ensures rules.Keys == old(rules).Keys
      ensures old(SwitchHolds()) ==> SwitchHolds()
    {
      if ToLower(httpMethod) != "get" {
        return;
      }
      domains := LatestDomains(domains, records);
      ghost var start := Store(tokens, rules);
      var i := 0;
      while i < |domains|
        invariant 0 <= i <= |domains|
        invariant Valid()
        invariant CaptureEach(Store(tokens, rules), domains[i..], hostOf(url), TokenHeaders(requestHeaders))
               == CaptureEach(start, domains, hostOf(url), TokenHeaders(requestHeaders))
        invariant rules.Keys == old(rules).Keys
        invariant domains == LatestDomains(old(domains), records)
        decreases |domains| - i
      {
        var host := hostOf(url);
        if host.None? {
          return;
        }
        var targetDomain := domains[i];
        assert domains[i..][0] == targetDomain && domains[i..][1..] == domains[i + 1..];
        var upcomingDomain := ToLower(host.value);
        if Contains(upcomingDomain, targetDomain) {
          var kept := TokenHeaders(requestHeaders);
          if |kept| < 1 {
            return;
          }
          tokens := tokens[targetDomain := kept];
          RefreshHeaderRules(targetDomain, kept);
        }
        i := i + 1;
      }
    }

    /** The `GetAllData` message (background.js:262-270): the searched
        records and the switch. */
    method GetAllData(search: string) returns (redirects: seq<RedirectRecord>, state: string)
      ensures redirects == Search(records, search)
      ensures search == [] ==> redirects == records
      ensures forall r :: r in redirects <==> r in records && (search == [] || Matches(r, search))
      ensures state == onOff
    {
      redirects := Search(records, search);
      state := onOff;
    }
  }
}
