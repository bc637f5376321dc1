/** Installing rule pairs for records: `updateRedirectRule` on the rule table,
    and the loop of `updateRulesBasedOnOnOFF('ON')` (background.js:390-399)
    that installs a pair for every enabled record.

    `hostOf` is the hostname of `new URL(from)`, None when the URL does not
    parse; `updateRedirectRule` throws then, before touching any rule, and the
    awaiting loop stops there. */
module Sync {
  import opened Wrappers
  import opened Text
  import opened Compiler
  import opened Rules
  import opened Registry

  /** `updateRedirectRule({fromUrl: from, toUrl: to, id, method})`
      (background.js:469-538): install the pair, with the headers stored for
      the lowercased host of `from`; no change when `from` does not parse. */
  function InstallRule(t: RuleTable, from: string, to: string, id: int, httpMethod: string,
                       hostOf: string -> Option<string>, tokens: map<string, seq<Header>>): (r: RuleTable)
    ensures hostOf(from).None? ==> r == t
    ensures hostOf(from).Some? ==>
      && r.Keys == t.Keys + {id, id + 1}
      && r[id] == RedirectRule(id, CompilePattern(from), Template(to), httpMethod)
      && r[id + 1] == HeaderRule(id, CompilePattern(to), GetToken(tokens, ToLower(hostOf(from).value)), httpMethod)
      && forall k | k in t && k != id && k != id + 1 :: r[k] == t[k]
  {
    match hostOf(from)
    case None => t
    case Some(h) => InstallPair(t, id, from, to, httpMethod, GetToken(tokens, ToLower(h)))
  }

  /** The rules installed for a record. */
  function RecordInstall(t: RuleTable, r: RedirectRecord, hostOf: string -> Option<string>,
                         tokens: map<string, seq<Header>>): RuleTable
  {
    InstallRule(t, r.from, r.to, r.redirectRuleId, r.httpMethod, hostOf, tokens)
  }

  /** The awaiting loop of background.js:395-397 over `recs`: one install per
      record, in order, stopping at the first record whose URL does not parse. */
  function InstallEach(t: RuleTable, recs: seq<RedirectRecord>, hostOf: string -> Option<string>,
                       tokens: map<string, seq<Header>>): (r: RuleTable)
    ensures t.Keys <= r.Keys <= t.Keys + PairIds(recs)
    ensures forall k | k in t && k !in PairIds(recs) :: r[k] == t[k]
    decreases |recs|
  {
    if recs == [] then t
    else if hostOf(recs[0].from).None? then t
    else
      var x := recs[0];
      assert PairIds(recs) == {x.redirectRuleId, x.redirectRuleId + 1} + PairIds(recs[1..]);
      InstallEach(RecordInstall(t, x, hostOf, tokens), recs[1..], hostOf, tokens)
  }

  /** The rule ids owned by the records: each id and its companion. */
  function PairIds(recs: seq<RedirectRecord>): set<int>
    decreases |recs|
  {
    if recs == [] then {} else {recs[0].redirectRuleId, recs[0].redirectRuleId + 1} + PairIds(recs[1..])
  }

  /** A rule id is owned by the records exactly when it is some record's id
      or companion id. */
  lemma {:induction false} PairIdsMember(recs: seq<RedirectRecord>, k: int)
    ensures k in PairIds(recs) <==> exists r | r in recs :: k == r.redirectRuleId || k == r.redirectRuleId + 1
    decreases |recs|
  {
    if recs != [] {
      PairIdsMember(recs[1..], k);
      assert forall r | r in recs[1..] :: r in recs;
      assert forall r | r in recs :: r == recs[0] || r in recs[1..];
    }
  }

  predicate AllParse(recs: seq<RedirectRecord>, hostOf: string -> Option<string>) {
    forall r | r in recs :: hostOf(r.from).Some?
  }

  /** The two rules a record's pair consists of. */
  predicate HasPair(u: RuleTable, r: RedirectRecord, hostOf: string -> Option<string>,
                    tokens: map<string, seq<Header>>)
    requires hostOf(r.from).Some?
  {
    && r.redirectRuleId in u
    && r.redirectRuleId + 1 in u
    && u[r.redirectRuleId] == RedirectRule(r.redirectRuleId, CompilePattern(r.from), Template(r.to), r.httpMethod)
    && u[r.redirectRuleId + 1] == HeaderRule(r.redirectRuleId, CompilePattern(r.to),
                                             GetToken(tokens, ToLower(hostOf(r.from).value)), r.httpMethod)
  }

  /** Installing one record whose URL parses puts its pair in the table. */
  lemma RecordInstallPair(t: RuleTable, x: RedirectRecord, hostOf: string -> Option<string>,
                          tokens: map<string, seq<Header>>)
    requires hostOf(x.from).Some?
    ensures HasPair(RecordInstall(t, x, hostOf, tokens), x, hostOf, tokens)
  {
  }

  /** The pair of a record survives into a table that agrees on its two ids. */
  lemma HasPairAgree(t1: RuleTable, u: RuleTable, x: RedirectRecord, hostOf: string -> Option<string>,
                     tokens: map<string, seq<Header>>)
    requires hostOf(x.from).Some? && HasPair(t1, x, hostOf, tokens)
    requires x.redirectRuleId in u && u[x.redirectRuleId] == t1[x.redirectRuleId]
    requires x.redirectRuleId + 1 in u && u[x.redirectRuleId + 1] == t1[x.redirectRuleId + 1]
    ensures HasPair(u, x, hostOf, tokens)
  {
  }

  /** The front record's ids are not owned by any later record of a spaced list. */
  lemma FrontOutsideRest(x: RedirectRecord, rest: seq<RedirectRecord>)
    requires Spaced([x] + rest)
    ensures x.redirectRuleId !in PairIds(rest) && x.redirectRuleId + 1 !in PairIds(rest)
    ensures Spaced(rest)
  {
    SpacedCons(x, rest);
    PairIdsMember(rest, x.redirectRuleId);
    PairIdsMember(rest, x.redirectRuleId + 1);
  }

  /** When every URL parses, the loop adds exactly the records' rule ids. */
  lemma {:induction false} InstallEachFrame(t: RuleTable, recs: seq<RedirectRecord>, hostOf: string -> Option<string>,
                                            tokens: map<string, seq<Header>>)
    requires AllParse(recs, hostOf)
    ensures InstallEach(t, recs, hostOf, tokens).Keys == t.Keys + PairIds(recs)
    decreases |recs|
  {
    if recs != [] {
      var x := recs[0];
      var t1 := RecordInstall(t, x, hostOf, tokens);
      assert AllParse(recs[1..], hostOf) by {
        forall r | r in recs[1..] ensures hostOf(r.from).Some? {
          assert r in recs;
        }
      }
      InstallEachFrame(t1, recs[1..], hostOf, tokens);
    }
  }

  /** On spaced records whose URLs all parse, every record's pair ends up
      installed: a later record never overwrites an earlier one's rules. */
  lemma {:induction false} InstallEachPairs(t: RuleTable, recs: seq<RedirectRecord>, hostOf: string -> Option<string>,
                                            tokens: map<string, seq<Header>>)
    requires Spaced(recs) && AllParse(recs, hostOf)
    ensures forall r | r in recs :: HasPair(InstallEach(t, recs, hostOf, tokens), r, hostOf, tokens)
    decreases |recs|
  {
    if recs != [] {
      var x := recs[0];
      var rest := recs[1..];
      assert recs == [x] + rest;
      FrontOutsideRest(x, rest);
      var t1 := RecordInstall(t, x, hostOf, tokens);
      RecordInstallPair(t, x, hostOf, tokens);
      InstallEachPairs(t1, rest, hostOf, tokens);
      var u := InstallEach(t1, rest, hostOf, tokens);
      assert InstallEach(t, recs, hostOf, tokens) == u;
      HasPairAgree(t1, u, x, hostOf, tokens);
      forall r | r in recs ensures HasPair(u, r, hostOf, tokens) {
        if r != x {
          assert r in rest;
        }
      }
    }
  }

  /** On spaced records whose URLs all parse, the loop installs exactly the
      records' pairs and leaves every other rule untouched. */
  lemma InstallEachExact(t: RuleTable, recs: seq<RedirectRecord>, hostOf: string -> Option<string>,
                         tokens: map<string, seq<Header>>)
    requires Spaced(recs) && AllParse(recs, hostOf)
    ensures var u := InstallEach(t, recs, hostOf, tokens);
      && u.Keys == t.Keys + PairIds(recs)
      && (forall r | r in recs :: HasPair(u, r, hostOf, tokens))
      && (forall k | k in t && k !in PairIds(recs) :: u[k] == t[k])
  {
    InstallEachFrame(t, recs, hostOf, tokens);
    InstallEachPairs(t, recs, hostOf, tokens);
  }

  /** The loop stops at the first record whose URL does not parse: the records
      after it get no rules. */
  lemma {:induction false} InstallEachStops(t: RuleTable, recs: seq<RedirectRecord>, i: int,
                                            hostOf: string -> Option<string>, tokens: map<string, seq<Header>>)
    requires 0 <= i < |recs| && hostOf(recs[i].from).None?
    ensures InstallEach(t, recs, hostOf, tokens) == InstallEach(t, recs[..i], hostOf, tokens)
    decreases i
  {
    if i > 0 {
      var front := recs[..i];
      assert front[0] == recs[0];
      if hostOf(recs[0].from).Some? {
        var t1 := RecordInstall(t, recs[0], hostOf, tokens);
        InstallEachStops(t1, recs[1..], i - 1, hostOf, tokens);
        assert front[1..] == recs[1..][..i - 1];
        assert InstallEach(t, front, hostOf, tokens) == InstallEach(t1, front[1..], hostOf, tokens);
        assert InstallEach(t, recs, hostOf, tokens) == InstallEach(t1, recs[1..], hostOf, tokens);
      }
    }
  }

  /** Switching ON from an empty table (background.js:394-397): a record gets
      rules exactly when it is enabled, and only the enabled records' pairs
      are installed. */
  lemma SwitchOnExact(records: seq<RedirectRecord>, hostOf: string -> Option<string>,
                      tokens: map<string, seq<Header>>)
    requires Spaced(records) && AllParse(Enabled(records), hostOf)
    ensures var u := InstallEach(map[], Enabled(records), hostOf, tokens);
      && u.Keys == PairIds(Enabled(records))
      && (forall r | r in records :: r.redirectRuleId in u <==> r.enabled)
      && (forall r | r in records && r.enabled :: HasPair(u, r, hostOf, tokens))
  {
    var en := Enabled(records);
    SpacedFilter(records, (r: RedirectRecord) => r.enabled);
    InstallEachExact(map[], en, hostOf, tokens);
    var u := InstallEach(map[], en, hostOf, tokens);
    forall r | r in records && r.redirectRuleId in u ensures r.enabled {
      PairIdsMember(en, r.redirectRuleId);
      var e :| e in en && (r.redirectRuleId == e.redirectRuleId || r.redirectRuleId == e.redirectRuleId + 1);
      var i :| 0 <= i < |records| && records[i] == r;
      var j :| 0 <= j < |records| && records[j] == e;
      if i != j {
        assert Apart(records[i], records[j]);
      }
    }
  }

  /** Two records whose ids are adjacent cannot both keep their pairs: the
      later record's redirect rule replaces the earlier record's header rule,
      so the earlier record sends its requests without the stored headers. */
  lemma AdjacentIdsLoseHeaderRule(t: RuleTable, a: RedirectRecord, b: RedirectRecord,
                                  hostOf: string -> Option<string>, tokens: map<string, seq<Header>>)
    requires hostOf(a.from).Some? && hostOf(b.from).Some?
    requires b.redirectRuleId == a.redirectRuleId + 1
    ensures var u := InstallEach(t, [a, b], hostOf, tokens);
      && a.redirectRuleId + 1 in u
      && u[a.redirectRuleId + 1] == RedirectRule(b.redirectRuleId, CompilePattern(b.from), Template(b.to), b.httpMethod)
      && !u[a.redirectRuleId + 1].action.ModifyHeaders?
  {
    var t1 := RecordInstall(t, a, hostOf, tokens);
    var t2 := RecordInstall(t1, b, hostOf, tokens);
    assert [a, b][1..] == [b] && [b][1..] == [];
    assert InstallEach(t, [a, b], hostOf, tokens) == InstallEach(t1, [b], hostOf, tokens);
    assert InstallEach(t1, [b], hostOf, tokens) == t2;
    RecordInstallPair(t1, b, hostOf, tokens);
  }

  /** `updateRulesBasedOnOnOFF(state)` (background.js:373-403) on the table:
      `OFF` removes every rule, `ON` runs the install loop over the enabled
      records, and any other state changes nothing. */
  function SwitchEffect(t: RuleTable, state: string, records: seq<RedirectRecord>,
                        hostOf: string -> Option<string>, tokens: map<string, seq<Header>>): (r: RuleTable)
    ensures state == "OFF" ==> r == map[]
    ensures state == "ON" ==> t.Keys <= r.Keys <= t.Keys + PairIds(Enabled(records))
    ensures state != "OFF" && state != "ON" ==> r == t
  {
    if state == "OFF" then RemoveAll(t)
    else if state == "ON" then InstallEach(t, Enabled(records), hostOf, tokens)
    else t
  }
}
