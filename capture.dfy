/** Header capture (background.js:81-129, 206-238, 556-568): the GET gate, the
    keyword filter on header names, the pruning of the domain list against the
    records, append-if-absent registration of a domain, and the fold over the
    domain list that stores a domain's headers and refreshes its header
    rules. */
module Capture {
  import opened Wrappers
  import opened Text
  import opened Seqs
  import opened Rules
  import opened Registry

  /** `details.method.toLowerCase() !== 'get'` ends the listener (background.js:85). */
  predicate IsGet(httpMethod: string)
    ensures IsGet(httpMethod) <==>
      && |httpMethod| == 3
      && httpMethod[0] in "gG" && httpMethod[1] in "eE" && httpMethod[2] in "tT"
  {
    var l := ToLower(httpMethod);
    assert |l| == 3 ==> (l == "get" <==> l[0] == 'g' && l[1] == 'e' && l[2] == 't');
    l == "get"
  }

  /** The request method gate ignores case. */
  lemma IsGetIgnoresCase(httpMethod: string)
    ensures IsGet(httpMethod) <==> IsGet(ToLower(httpMethod))
  {
    ToLowerIdempotent(httpMethod);
  }

  lemma ToLowerIdempotent(s: string)
    ensures ToLower(ToLower(s)) == ToLower(s)
  {
  }

  /** The keywords of background.js:95. */
  const Keywords: seq<string> := ["authorization", "token", "jwt", "cookie", "auth_token", "session_id", "Set-Cookie"]

  /** A header is kept when its lowercased name contains some keyword. */
  predicate IsTokenHeader(h: Header) {
    exists k | k in Keywords :: Contains(ToLower(h.name), k)
  }

  /** The kept headers `authHedArr` (background.js:96): exactly the token
      headers, in their original order. */
  function TokenHeaders(hs: seq<Header>): (r: seq<Header>)
    ensures |r| <= |hs|
    ensures forall h :: h in r <==> h in hs && IsTokenHeader(h)
  {
    Filter(hs, IsTokenHeader)
  }

  /** Keeping the token headers of a list made of two parts keeps them part
      by part: the original order survives. */
  lemma TokenHeadersConcat(a: seq<Header>, b: seq<Header>)
    ensures TokenHeaders(a + b) == TokenHeaders(a) + TokenHeaders(b)
  {
    FilterConcat(a, b, IsTokenHeader);
  }

  /** A lowercased name never contains `Set-Cookie`. */
  lemma SetCookieNeverMatches(name: string)
    ensures !Contains(ToLower(name), "Set-Cookie")
  {
    ToLowerHasNoUpper(name);
    assert IsUpper("Set-Cookie"[0]);
    if Contains(ToLower(name), "Set-Cookie") {
      ContainsChars(ToLower(name), "Set-Cookie");
      assert false;
    }
  }

  /** The keyword `Set-Cookie` adds nothing: a header is kept exactly when its
      lowercased name contains one of the six lower-case keywords. */
  lemma TokenHeaderByLowerKeywords(h: Header)
    ensures IsTokenHeader(h) <==> exists k | k in Keywords[..6] :: Contains(ToLower(h.name), k)
  {
    SetCookieNeverMatches(h.name);
    assert Keywords == Keywords[..6] + ["Set-Cookie"];
  }

  // ---------------------------------------------------------------------------
  // The domain list

  /** `getLatestDomains` (background.js:223-238): the domains that the
      lowercased `from` of some record contains, ignoring case. */
  function LatestDomains(domains: seq<string>, records: seq<RedirectRecord>): (r: seq<string>)
    ensures |r| <= |domains|
    ensures forall d :: d in r <==> d in domains && Registered(d, records)
  {
    Filter(domains, d => Registered(d, records))
  }

  predicate Registered(d: string, records: seq<RedirectRecord>) {
    exists r | r in records :: Contains(ToLower(r.from), ToLower(d))
  }

  /** Pruning twice prunes nothing more. */
  lemma LatestDomainsIdempotent(domains: seq<string>, records: seq<RedirectRecord>)
    ensures LatestDomains(LatestDomains(domains, records), records) == LatestDomains(domains, records)
  {
    var once := LatestDomains(domains, records);
    FilterAll(once, d => Registered(d, records));
  }

  /** `setDomainArr2(domain)` (background.js:556-568): append the domain
      unless it is already listed.
      Registration keeps the listed domains in place, lists the new one,
      grows the list only for a new domain, and never creates a duplicate. */
  function AppendIfAbsent(domains: seq<string>, d: string): (r: seq<string>)
    ensures domains <= r && |r| <= |domains| + 1
    ensures forall x :: x in r <==> x in domains || x == d
    ensures d in domains ==> |r| == |domains|
    ensures NoDuplicates(domains) ==> NoDuplicates(r)
  {
    if d in domains then domains else domains + [d]
  }

  predicate NoDuplicates<T(==)>(s: seq<T>) {
    forall i, j :: 0 <= i < j < |s| ==> s[i] != s[j]
  }

  // ---------------------------------------------------------------------------
  // Capturing headers for the listed domains (background.js:90-122)

  /** What the listener changes: the stored headers by domain, and the rules. */
  datatype Store = Store(tokens: map<string, seq<Header>>, rules: RuleTable)

  /** Store the kept headers for one domain and put them on that domain's
      header rules (background.js:102-120). */
  function CaptureDomain(st: Store, d: string, kept: seq<Header>): (r: Store)
    ensures r.tokens == st.tokens[d := kept]
    ensures r.rules.Keys == st.rules.Keys
    ensures forall k | k in st.rules :: r.rules[k].condition == st.rules[k].condition
    ensures forall k | k in HeaderRuleIds(st.rules, d) :: r.rules[k] == WithHeaders(st.rules[k], kept)
    ensures forall k | k in st.rules && k !in HeaderRuleIds(st.rules, d) :: r.rules[k] == st.rules[k]
  {
    Store(st.tokens[d := kept], RefreshHeaders(st.rules, HeaderRuleIds(st.rules, d), kept))
  }

  /** The loop over the listed domains for a request to `url` with host
      `host` (None when the URL does not parse, which throws) and kept
      headers `kept`. A domain is captured when the lowercased host contains
      it; an empty `kept` ends the whole listener at the first such domain. */
  function CaptureEach(st: Store, domains: seq<string>, host: Option<string>, kept: seq<Header>): (r: Store)
    ensures r.rules.Keys == st.rules.Keys
    ensures st.tokens.Keys <= r.tokens.Keys <= st.tokens.Keys + set d | d in domains
    ensures host.None? ==> r == st
    decreases |domains|
  {
    if domains == [] then st
    else if host.None? then st
    else if !Contains(ToLower(host.value), domains[0]) then CaptureEach(st, domains[1..], host, kept)
    else if |kept| < 1 then st
    else CaptureEach(CaptureDomain(st, domains[0], kept), domains[1..], host, kept)
  }

  /** An empty list of kept headers stores nothing and changes no rule. */
  lemma {:induction false} CaptureNothingKept(st: Store, domains: seq<string>, host: Option<string>)
    ensures CaptureEach(st, domains, host, []) == st
    decreases |domains|
  {
    if domains != [] && host.Some? && !Contains(ToLower(host.value), domains[0]) {
      CaptureNothingKept(st, domains[1..], host);
    }
  }

  /** A domain the listener captures for: a listed domain that the parsed
      host contains, on a request with headers to keep (background.js:93-99). */
  predicate Hit(domains: seq<string>, host: Option<string>, kept: seq<Header>, d: string)
  {
    host.Some? && kept != [] && d in domains && Contains(ToLower(host.value), d)
  }

  /** The capture loop never adds or removes a rule, only stores `kept` under
      listed domains, and, when the host parses and `kept` is not empty,
      stores `kept` under every listed domain the host contains; every other
      domain keeps what it had. */
  lemma {:induction false} CaptureEachEffect(st: Store, domains: seq<string>, host: Option<string>, kept: seq<Header>)
    ensures var r := CaptureEach(st, domains, host, kept);
      && r.rules.Keys == st.rules.Keys
      && st.tokens.Keys <= r.tokens.Keys
      && (forall d | d in r.tokens :: (d in domains && r.tokens[d] == kept) || (d in st.tokens && r.tokens[d] == st.tokens[d]))
      && (host.Some? && kept != [] ==>
            forall d | d in domains && Contains(ToLower(host.value), d) :: d in r.tokens && r.tokens[d] == kept)
      && (forall d | d in r.tokens && !Hit(domains, host, kept, d) :: d in st.tokens && r.tokens[d] == st.tokens[d])
    decreases |domains|
  {
    if domains == [] || host.None? {
    } else if !Contains(ToLower(host.value), domains[0]) {
      CaptureEachEffect(st, domains[1..], host, kept);
    } else if |kept| < 1 {
    } else {
      var st' := CaptureDomain(st, domains[0], kept);
      CaptureEachEffect(st', domains[1..], host, kept);
    }
  }

  /** What the capture loop does to the rules: every header rule found for a
      listed domain that the host contains gets `kept` (when the host parses
      and `kept` is not empty); a rule found for no listed domain is
      untouched, and so is a rule found for no domain the listener captures
      for; no rule changes in any other way. */
  lemma {:induction false} CaptureEachRules(st: Store, domains: seq<string>, host: Option<string>, kept: seq<Header>)
    ensures var r := CaptureEach(st, domains, host, kept);
      && (forall k | k in st.rules :: r.rules[k] == st.rules[k] || r.rules[k] == WithHeaders(st.rules[k], kept))
      && (forall k | k in st.rules && (forall d | d in domains :: k !in HeaderRuleIds(st.rules, d)) :: r.rules[k] == st.rules[k])
      && (host.Some? && kept != [] ==>
            forall d, k | d in domains && Contains(ToLower(host.value), d) && k in HeaderRuleIds(st.rules, d) ::
              r.rules[k] == WithHeaders(st.rules[k], kept))
      && (forall k | k in st.rules && (forall d | Hit(domains, host, kept, d) :: k !in HeaderRuleIds(st.rules, d)) ::
            r.rules[k] == st.rules[k])
    decreases |domains|
  {
    if domains == [] || host.None? {
    } else if !Contains(ToLower(host.value), domains[0]) {
      CaptureEachRules(st, domains[1..], host, kept);
      assert forall d | d in domains[1..] :: d in domains;
    } else if |kept| < 1 {
    } else {
      var st' := CaptureDomain(st, domains[0], kept);
      CaptureEachRules(st', domains[1..], host, kept);
      forall d | true ensures HeaderRuleIds(st'.rules, d) == HeaderRuleIds(st.rules, d) {
        RefreshKeepsHeaderRuleIds(st.rules, HeaderRuleIds(st.rules, domains[0]), kept, d);
      }
      assert forall d | d in domains[1..] :: d in domains;
      assert forall d | d in domains :: d == domains[0] || d in domains[1..];
    }
  }

  /** The stored headers are what the next installation of a pair for that
      domain puts on its header rule. */
  lemma CapturedTokenUsed(st: Store, domains: seq<string>, host: string, kept: seq<Header>, d: string)
    requires kept != [] && d in domains && Contains(ToLower(host), d)
    ensures GetToken(CaptureEach(st, domains, Some(host), kept).tokens, d) == kept
  {
    CaptureEachEffect(st, domains, Some(host), kept);
  }
}
