/** The redirect registry: the persisted list `redirects` of records
    `{from, to, enabled, method, redirectRuleId, timestamp}`, newest first,
    and the list operations of `AddUpdateRedirect`, `DeleteRedirect`,
    `EnableDisableRedirect`, `reSyncRedirects`, `updateRulesBasedOnOnOFF` and
    the search of the `GetAllData` message (background.js:263-468).

    A record with id `n` owns the rule ids `n` and `n + 1`. `Spaced` is the
    invariant that makes those pairs disjoint: no two records share an id and
    no record's `id + 1` is another record's id. */
module Registry {
  import opened Wrappers
  import opened Text
  import opened Seqs

  datatype RedirectRecord = RedirectRecord(
    from: string,
    to: string,
    enabled: bool,
    httpMethod: string,
    redirectRuleId: int,
    timestamp: Option<string>)

  // ---------------------------------------------------------------------------
  // Ids

  /** `Math.max(...redirects.map(e => e.redirectRuleId))`. */
  function MaxId(rs: seq<RedirectRecord>): (m: int)
    requires rs != []
    ensures forall r | r in rs :: r.redirectRuleId <= m
    ensures exists r | r in rs :: r.redirectRuleId == m
  {
    if |rs| == 1 then rs[0].redirectRuleId
    else
      var rest := MaxId(rs[1..]);
      if rs[0].redirectRuleId > rest then rs[0].redirectRuleId else rest
  }

  /** The id given to a new record (background.js:445): 1 for an empty list,
      otherwise two more than the largest id. It lies beyond every id and
      every companion id `id + 1` of the list. */
  function NextId(rs: seq<RedirectRecord>): (n: int)
    ensures rs == [] ==> n == 1
    ensures rs != [] ==> exists r | r in rs :: n == r.redirectRuleId + 2
    ensures forall r | r in rs :: r.redirectRuleId + 1 < n
  {
    if rs == [] then 1 else MaxId(rs) + 2
  }

  /** `ruleId ? 'UPDATE' : 'CREATE'` (background.js:425): a missing id and the
      id 0 are both falsy. */
  predicate IsUpdate(ruleId: Option<int>) {
    ruleId.Some? && ruleId.value != 0
  }

  /** The id `AddUpdateRedirect` installs rules for. */
  function UpsertId(rs: seq<RedirectRecord>, ruleId: Option<int>): int {
    if IsUpdate(ruleId) then ruleId.value else NextId(rs)
  }

  // ---------------------------------------------------------------------------
  // List operations

  /** `redirects.filter(r => r.redirectRuleId != id)` (background.js:345, 438). */
  function WithoutId(rs: seq<RedirectRecord>, id: int): seq<RedirectRecord> {
    Filter(rs, (r: RedirectRecord) => r.redirectRuleId != id)
  }

  /** The new list of `AddUpdateRedirect` (background.js:428-456): on update the
      records with that id are dropped and the new record goes in front; on
      create the new record, with a fresh id, goes in front. Either way the new
      record is enabled. */
  function Upsert(rs: seq<RedirectRecord>, from: string, to: string, httpMethod: string,
                  ruleId: Option<int>, now: string): (r: seq<RedirectRecord>)
    ensures |r| >= 1
    ensures r[0] == RedirectRecord(from, to, true, httpMethod, UpsertId(rs, ruleId), Some(now))
    ensures !IsUpdate(ruleId) ==> r[1..] == rs
    ensures IsUpdate(ruleId) ==> r[1..] == WithoutId(rs, ruleId.value)
  {
    [RedirectRecord(from, to, true, httpMethod, UpsertId(rs, ruleId), Some(now))]
      + (if IsUpdate(ruleId) then WithoutId(rs, ruleId.value) else rs)
  }

  /** `redirects.findIndex(r => r.redirectRuleId == id)`: the first index with
      that id, or -1. */
  function FindIndex(rs: seq<RedirectRecord>, id: int): (i: int)
    ensures -1 <= i < |rs|
    ensures i >= 0 ==> rs[i].redirectRuleId == id
    ensures forall j :: 0 <= j < |rs| && (i == -1 || j < i) ==> rs[j].redirectRuleId != id
  {
    if rs == [] then -1
    else if rs[0].redirectRuleId == id then 0
    else
      var k := FindIndex(rs[1..], id);
      if k == -1 then -1 else k + 1
  }

  /** Every record with its flag set to `v`: the `forEach` of background.js:361. */
  function SetAllEnabled(rs: seq<RedirectRecord>, v: bool): seq<RedirectRecord> {
    seq(|rs|, i requires 0 <= i < |rs| => rs[i].(enabled := v))
  }

  /** The records after `reSyncRedirects`: all disabled, since its flag is
      `btn !== 'Enable All' ? false : true` and no `btn` is `'Enable All'`. */
  function DisableAll(rs: seq<RedirectRecord>): seq<RedirectRecord> {
    SetAllEnabled(rs, false)
  }

  /** `redirects.filter(r => r.enabled === true)` (background.js:394). */
  function Enabled(rs: seq<RedirectRecord>): seq<RedirectRecord> {
    Filter(rs, (r: RedirectRecord) => r.enabled)
  }

  /** The search of `GetAllData` (background.js:266-268): an empty term keeps
      every record; otherwise a record is kept when its `from` or its `to`
      contains the term, ignoring case. */
  function Search(rs: seq<RedirectRecord>, term: string): (r: seq<RedirectRecord>)
    ensures term == [] ==> r == rs
    ensures term != [] ==> forall x :: x in r <==> x in rs && Matches(x, term)
  {
    if term == [] then rs else Filter(rs, (x: RedirectRecord) => Matches(x, term))
  }

  predicate Matches(r: RedirectRecord, term: string) {
    Contains(ToLower(r.from), ToLower(term)) || Contains(ToLower(r.to), ToLower(term))
  }

  /** The search keeps the records it returns in their stored order: searching
      a list made of two parts searches each part. */
  lemma SearchKeepsOrder(a: seq<RedirectRecord>, b: seq<RedirectRecord>, term: string)
    ensures Search(a + b, term) == Search(a, term) + Search(b, term)
  {
    if term != [] {
      FilterConcat(a, b, (x: RedirectRecord) => Matches(x, term));
    }
  }

  // ---------------------------------------------------------------------------
  // The spacing invariant

  /** The rule pairs `{a, a + 1}` and `{b, b + 1}` of two records are disjoint. */
  predicate Apart(a: RedirectRecord, b: RedirectRecord) {
    && a.redirectRuleId != b.redirectRuleId
    && a.redirectRuleId + 1 != b.redirectRuleId
    && b.redirectRuleId + 1 != a.redirectRuleId
  }

  /** No two records share an id, and no record's companion id `id + 1` is the
      id of a record. */
  predicate Spaced(rs: seq<RedirectRecord>) {
    forall i, j :: 0 <= i < |rs| && 0 <= j < |rs| && i != j ==> Apart(rs[i], rs[j])
  }

  /** A list with a record in front is spaced exactly when the rest is and the
      front record is apart from every other one. */
  lemma SpacedCons(x: RedirectRecord, rs: seq<RedirectRecord>)
    ensures Spaced([x] + rs) <==> Spaced(rs) && forall r | r in rs :: Apart(x, r)
  {
    var s := [x] + rs;
    if Spaced(s) {
      forall i, j | 0 <= i < |rs| && 0 <= j < |rs| && i != j ensures Apart(rs[i], rs[j]) {
        assert s[i + 1] == rs[i] && s[j + 1] == rs[j];
      }
      forall r | r in rs ensures Apart(x, r) {
        var j :| 0 <= j < |rs| && rs[j] == r;
        assert s[0] == x && s[j + 1] == r;
      }
    }
    if Spaced(rs) && forall r | r in rs :: Apart(x, r) {
      forall i, j | 0 <= i < |s| && 0 <= j < |s| && i != j ensures Apart(s[i], s[j]) {
        if i == 0 {
          assert s[j] == rs[j - 1];
        } else if j == 0 {
          assert s[i] == rs[i - 1];
          assert Apart(x, rs[i - 1]);
        } else {
          assert s[i] == rs[i - 1] && s[j] == rs[j - 1];
        }
      }
    }
  }

  /** Any filter of a spaced list is spaced: deleting records, or keeping only
      the enabled ones, keeps the pairs disjoint. */
  lemma {:induction false} SpacedFilter(rs: seq<RedirectRecord>, p: RedirectRecord -> bool)
    requires Spaced(rs)
    ensures Spaced(Filter(rs, p))
  {
    if rs != [] {
      assert rs == [rs[0]] + rs[1..];
      SpacedCons(rs[0], rs[1..]);
      SpacedFilter(rs[1..], p);
      if p(rs[0]) {
        SpacedCons(rs[0], Filter(rs[1..], p));
      }
    }
  }

  /** Creating a record keeps the list spaced: the fresh id lies beyond every
      id and companion id. */
  lemma CreateKeepsSpaced(rs: seq<RedirectRecord>, from: string, to: string, httpMethod: string, now: string)
    requires Spaced(rs)
    ensures Spaced(Upsert(rs, from, to, httpMethod, None, now))
  {
    var r := Upsert(rs, from, to, httpMethod, None, now);
    assert r == [r[0]] + rs;
    SpacedCons(r[0], rs);
  }

  /** Updating a record that exists keeps the list spaced, and leaves exactly
      one record with that id, in front. */
  lemma UpdateKeepsSpaced(rs: seq<RedirectRecord>, from: string, to: string, httpMethod: string, id: int, now: string)
    requires Spaced(rs)
    requires id != 0
    requires HasId(rs, id)
    ensures var u := Upsert(rs, from, to, httpMethod, Some(id), now);
      && Spaced(u)
      && u[0].redirectRuleId == id
      && forall i :: 0 < i < |u| ==> u[i].redirectRuleId != id
  {
    var u := Upsert(rs, from, to, httpMethod, Some(id), now);
    var rest := WithoutId(rs, id);
    var old_ :| old_ in rs && old_.redirectRuleId == id;
    SpacedFilter(rs, (r: RedirectRecord) => r.redirectRuleId != id);
    assert u == [u[0]] + rest;
    forall r | r in rest ensures Apart(u[0], r) {
      var j :| 0 <= j < |rs| && rs[j] == r;
      var k :| 0 <= k < |rs| && rs[k] == old_;
      assert j != k;
      assert Apart(rs[k], rs[j]);
    }
    SpacedCons(u[0], rest);
    forall i | 0 < i < |u| ensures u[i].redirectRuleId != id {
      assert u[i] in rest;
    }
  }

  /** Some record has the id. */
  predicate HasId(rs: seq<RedirectRecord>, id: int) {
    exists r | r in rs :: r.redirectRuleId == id
  }

  /** `AddUpdateRedirect` keeps the list spaced when it creates a record or
      updates one that exists. */
  lemma UpsertKeepsSpaced(rs: seq<RedirectRecord>, from: string, to: string, httpMethod: string,
                          ruleId: Option<int>, now: string)
    requires Spaced(rs)
    requires IsUpdate(ruleId) ==> HasId(rs, ruleId.value)
    ensures Spaced(Upsert(rs, from, to, httpMethod, ruleId, now))
  {
    if IsUpdate(ruleId) {
      UpdateKeepsSpaced(rs, from, to, httpMethod, ruleId.value, now);
    } else {
      CreateKeepsSpaced(rs, from, to, httpMethod, now);
    }
  }

  /** Disabling every record twice disables them once. */
  lemma DisableAllIdempotent(rs: seq<RedirectRecord>)
    ensures DisableAll(DisableAll(rs)) == DisableAll(rs)
  {
  }

  /** Disabling every record keeps the ids, so the list stays spaced. */
  lemma DisableAllKeepsSpaced(rs: seq<RedirectRecord>)
    requires Spaced(rs)
    ensures Spaced(DisableAll(rs))
    ensures forall r | r in DisableAll(rs) :: !r.enabled
  {
    var d := DisableAll(rs);
    forall i, j | 0 <= i < |d| && 0 <= j < |d| && i != j ensures Apart(d[i], d[j]) {
      assert Apart(rs[i], rs[j]);
    }
  }

  /** Setting one record's flag keeps the ids, so the list stays spaced. */
  lemma SetEnabledKeepsSpaced(rs: seq<RedirectRecord>, i: int, status: bool)
    requires Spaced(rs) && 0 <= i < |rs|
    ensures Spaced(rs[i := rs[i].(enabled := status)])
  {
    var s := rs[i := rs[i].(enabled := status)];
    forall a, b | 0 <= a < |s| && 0 <= b < |s| && a != b ensures Apart(s[a], s[b]) {
      assert Apart(rs[a], rs[b]);
    }
  }

  /** Ids 1, 3, 5, ... in list order make a spaced list. */
  lemma OddIdsSpaced(rs: seq<RedirectRecord>)
    requires forall i :: 0 <= i < |rs| ==> rs[i].redirectRuleId == 2 * i + 1
    ensures Spaced(rs)
  {
  }
}
