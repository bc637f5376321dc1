/** The placeholder compiler of `updateRedirectRule` (background.js:469-486).

    A user URL may hold runs of `#`, each a placeholder. The compiler turns
    - a URL into an anchored matching pattern: every regular-expression
      metacharacter is escaped with a backslash, every run of `#` becomes the
      capturing group `(.*)`, and the result is wrapped in `^ ... $`
      (used for the source URL and for the destination URL);
    - the destination URL into a substitution template: every run of `#`
      becomes one `#`, and the k-th `#` from the left becomes the
      back-reference `\k`. The template is neither escaped nor anchored.

    Both outputs are characterised through `Pieces`, the `#`-free pieces of a
    URL between its maximal runs of `#`. */
module Compiler {
  import opened Text

  /** The character class `[.*+?^${}()/|[\]\\]` of background.js:473. */
  predicate IsSpecial(c: char) {
    || c == '.' || c == '*' || c == '+' || c == '?' || c == '^' || c == '$'
    || c == '{' || c == '}' || c == '(' || c == ')' || c == '/' || c == '|'
    || c == '[' || c == ']' || c == '\\'
  }

  /** What each run of `#` becomes in a matching pattern. */
  const Wildcard: string := "(.*)"

  // ---------------------------------------------------------------------------
  // The two rewriting passes, as the source runs them

  /** `'\\$&'` applied to one character. */
  function EscapeChar(c: char): string {
    if IsSpecial(c) then ['\\', c] else [c]
  }

  /** `s.replace(specialChars, '\\$&')`. */
  function Escape(s: string): string {
    if s == [] then [] else EscapeChar(s[0]) + Escape(s[1..])
  }

  /** `s` without its leading run of `#`. */
  function SkipHashes(s: string): (r: string)
    ensures |r| <= |s|
    ensures r == [] || r[0] != '#'
    ensures s != [] && s[0] == '#' ==> |r| < |s|
  {
    if s != [] && s[0] == '#' then SkipHashes(s[1..]) else s
  }

  /** `s.replace(/#+/g, rep)`: the greedy global match replaces each maximal
      run of `#` by `rep`. */
  function ReplaceHashRuns(s: string, rep: string): string
    decreases |s|
  {
    if s == [] then []
    else if s[0] == '#' then rep + ReplaceHashRuns(SkipHashes(s), rep)
    else [s[0]] + ReplaceHashRuns(s[1..], rep)
  }

  /** The number of maximal runs of `#` in `s`. */
  function HashRuns(s: string): nat
    decreases |s|
  {
    if s == [] then 0
    else if s[0] == '#' then 1 + HashRuns(SkipHashes(s))
    else HashRuns(s[1..])
  }

  // ---------------------------------------------------------------------------
  // The pieces of a URL between its placeholders

  /** The `#`-free pieces of `s` between its maximal runs of `#`, from the left;
      a leading or trailing run gives an empty first or last piece. */
  function Pieces(s: string): (ps: seq<string>)
    ensures |ps| == HashRuns(s) + 1
    ensures forall i :: 0 <= i < |ps| ==> '#' !in ps[i]
    decreases |s|
  {
    if s == [] then [[]]
    else if s[0] == '#' then [[]] + Pieces(SkipHashes(s))
    else
      var rest := Pieces(s[1..]);
      [[s[0]] + rest[0]] + rest[1..]
  }

  /** The pieces joined again with one `#` between neighbours. */
  function JoinHashes(ps: seq<string>): string
    requires |ps| >= 1
  {
    if |ps| == 1 then ps[0] else ps[0] + ("#" + JoinHashes(ps[1..]))
  }

  /** The pieces, escaped, joined with a capturing group between neighbours. */
  function JoinWildcards(ps: seq<string>): string
    requires |ps| >= 1
  {
    if |ps| == 1 then Escape(ps[0]) else Escape(ps[0]) + (Wildcard + JoinWildcards(ps[1..]))
  }

  /** The pieces joined with the back-references `\k`, `\k+1`, ... between
      neighbours. */
  function JoinBackRefs(ps: seq<string>, k: nat): string
    requires |ps| >= 1
  {
    if |ps| == 1 then ps[0] else ps[0] + (BackRef(k) + JoinBackRefs(ps[1..], k + 1))
  }

  /** The pieces are what lies between the runs: joining them with a single `#`
      gives the URL with every run collapsed to one `#` (background.js:485). */
  lemma {:induction false} PiecesJoin(s: string)
    ensures JoinHashes(Pieces(s)) == ReplaceHashRuns(s, "#")
    decreases |s|
  {
    if s == [] {
    } else if s[0] == '#' {
      PiecesJoin(SkipHashes(s));
      assert ([[]] + Pieces(SkipHashes(s)))[1..] == Pieces(SkipHashes(s));
    } else {
      PiecesJoin(s[1..]);
      var rest := Pieces(s[1..]);
      assert ([[s[0]] + rest[0]] + rest[1..])[1..] == rest[1..];
      if |rest| > 1 {
        assert rest == [rest[0]] + rest[1..];
      }
    }
  }

  // ---------------------------------------------------------------------------
  // Decimal numbers for the back-references

  function DigitChar(d: nat): (c: char)
    requires d < 10
    ensures '0' <= c <= '9'
  {
    ('0' as int + d) as char
  }

  /** The number a string of decimal digits denotes, most significant digit
      first. */
  function DigitsValue(s: string): nat
    requires forall i :: 0 <= i < |s| ==> '0' <= s[i] <= '9'
    decreases |s|
  {
    if s == [] then 0
    else DigitsValue(s[..|s| - 1]) * 10 + (s[|s| - 1] as int - '0' as int)
  }

  /** `String(n)`: the decimal numeral of `n`, which reads back as `n`. */
  function Decimal(n: nat): (r: string)
    ensures |r| >= 1
    ensures forall i :: 0 <= i < |r| ==> '0' <= r[i] <= '9'
    ensures DigitsValue(r) == n
  {
    if n < 10 then [DigitChar(n)]
    else
      var d := Decimal(n / 10);
      assert (d + [DigitChar(n % 10)])[..|d|] == d;
      d + [DigitChar(n % 10)]
  }

  /** The back-reference `\k` written by the callback of background.js:486. */
  function BackRef(k: nat): string {
    "\\" + Decimal(k)
  }

  /** Distinct placeholders get distinct back-references. */
  lemma BackRefInjective(m: nat, n: nat)
    ensures BackRef(m) == BackRef(n) ==> m == n
  {
    if BackRef(m) == BackRef(n) {
      assert Decimal(m) == BackRef(m)[1..];
      assert Decimal(n) == BackRef(n)[1..];
    }
  }

  // ---------------------------------------------------------------------------
  // The matching pattern (background.js:473-476 and 479-481)

  /** The anchored matching pattern of a URL: its pieces escaped, each run of
      `#` a capturing group, between `^` and `$`. */
  function CompilePattern(url: string): (r: string)
    ensures r == "^" + JoinWildcards(Pieces(url)) + "$"
  {
    PatternPieces(url);
    "^" + ReplaceHashRuns(Escape(url), Wildcard) + "$"
  }

  lemma {:induction false} EscapeFirst(c: char, s: string)
    ensures Escape([c] + s) == EscapeChar(c) + Escape(s)
  {
    assert ([c] + s)[0] == c;
    assert ([c] + s)[1..] == s;
  }

  /** Escaping never creates or removes a `#`, so the leading run is skipped
      the same before and after escaping. */
  lemma {:induction false} SkipEscape(s: string)
    ensures SkipHashes(Escape(s)) == Escape(SkipHashes(s))
    decreases |s|
  {
    if s != [] {
      var e := Escape(s[1..]);
      assert Escape(s) == EscapeChar(s[0]) + e;
      if s[0] == '#' {
        assert EscapeChar(s[0]) == "#";
        assert ("#" + e)[1..] == e;
        SkipEscape(s[1..]);
      } else {
        var h := EscapeChar(s[0]);
        assert h[0] != '#';
        assert (h + e)[0] == h[0];
      }
    }
  }

  /** A `#`-free prefix passes through the run replacement unchanged. */
  lemma {:induction false} ReplacePrefix(p: string, s: string, rep: string)
    requires '#' !in p
    ensures ReplaceHashRuns(p + s, rep) == p + ReplaceHashRuns(s, rep)
    decreases |p|
  {
    if p == [] {
      assert p + s == s;
    } else {
      assert (p + s)[0] == p[0];
      assert (p + s)[1..] == p[1..] + s;
      ReplacePrefix(p[1..], s, rep);
    }
  }

  /** Escaping then replacing the runs (the source's two passes) is the same as
      escaping each piece and putting one capturing group between pieces. */
  lemma {:induction false} PatternPieces(s: string)
    ensures ReplaceHashRuns(Escape(s), Wildcard) == JoinWildcards(Pieces(s))
    decreases |s|
  {
    if s == [] {
      assert Escape(s) == [];
      assert JoinWildcards([[]]) == Escape([]);
    } else if s[0] == '#' {
      PatternPieces(SkipHashes(s));
      PatternStepRun(s);
    } else {
      PatternPieces(s[1..]);
      PatternStepChar(s);
    }
  }

  /** The step of `PatternPieces` at a run of `#`. */
  lemma PatternStepRun(s: string)
    requires s != [] && s[0] == '#'
    requires ReplaceHashRuns(Escape(SkipHashes(s)), Wildcard) == JoinWildcards(Pieces(SkipHashes(s)))
    ensures ReplaceHashRuns(Escape(s), Wildcard) == JoinWildcards(Pieces(s))
  {
    var t := SkipHashes(s);
    var e := Escape(s);
    assert e == "#" + Escape(s[1..]);
    assert e[0] == '#';
    assert ReplaceHashRuns(e, Wildcard) == Wildcard + ReplaceHashRuns(SkipHashes(e), Wildcard);
    SkipEscape(s);
    var ps := [[]] + Pieces(t);
    assert Pieces(s) == ps;
    assert ps[1..] == Pieces(t);
    assert Escape(ps[0]) == [];
    assert JoinWildcards(ps) == Escape(ps[0]) + Wildcard + JoinWildcards(ps[1..]);
    assert JoinWildcards(ps) == Wildcard + JoinWildcards(Pieces(t));
  }

  /** The step of `PatternPieces` at a character other than `#`. */
  lemma PatternStepChar(s: string)
    requires s != [] && s[0] != '#'
    requires ReplaceHashRuns(Escape(s[1..]), Wildcard) == JoinWildcards(Pieces(s[1..]))
    ensures ReplaceHashRuns(Escape(s), Wildcard) == JoinWildcards(Pieces(s))
  {
    var h := EscapeChar(s[0]);
    assert Escape(s) == h + Escape(s[1..]);
    ReplacePrefix(h, Escape(s[1..]), Wildcard);
    JoinWildcardsCons(s[0], Pieces(s[1..]));
  }

  /** Putting a character in front of the first piece puts its escape in front
      of the joined pattern. */
  lemma JoinWildcardsCons(c: char, ps: seq<string>)
    requires |ps| >= 1
    ensures JoinWildcards([[c] + ps[0]] + ps[1..]) == EscapeChar(c) + JoinWildcards(ps)
  {
    if |ps| == 1 {
      JoinWildcardsConsLast(c, ps[0]);
      assert [[c] + ps[0]] + ps[1..] == [[c] + ps[0]];
    } else {
      JoinWildcardsConsMore(c, ps);
    }
  }

  lemma JoinWildcardsConsLast(c: char, p: string)
    ensures JoinWildcards([[c] + p]) == EscapeChar(c) + JoinWildcards([p])
  {
    EscapeFirst(c, p);
  }

  lemma JoinWildcardsConsMore(c: char, ps: seq<string>)
    requires |ps| > 1
    ensures JoinWildcards([[c] + ps[0]] + ps[1..]) == EscapeChar(c) + JoinWildcards(ps)
  {
    var qs := [[c] + ps[0]] + ps[1..];
    var h := EscapeChar(c);
    var tail := Wildcard + JoinWildcards(ps[1..]);
    assert JoinWildcards(qs) == Escape([c] + ps[0]) + tail by {
      assert qs[0] == [c] + ps[0] && qs[1..] == ps[1..];
    }
    EscapeFirst(c, ps[0]);
    assert JoinWildcards(ps) == Escape(ps[0]) + tail;
    ConcatAssoc(h, Escape(ps[0]), tail);
  }

  lemma ConcatAssoc(a: string, b: string, c: string)
    ensures (a + b) + c == a + (b + c)
  {
  }

  /** Escaping can be undone: dropping each escaping backslash and keeping the
      character after it gives the URL back, so distinct URLs give distinct
      patterns. */
  function Unescape(t: string): string
    decreases |t|
  {
    if t == [] then []
    else if t[0] == '\\' && |t| > 1 then [t[1]] + Unescape(t[2..])
    else [t[0]] + Unescape(t[1..])
  }

  lemma {:induction false} UnescapeEscape(s: string)
    ensures Unescape(Escape(s)) == s
  {
    if s != [] {
      var e := Escape(s);
      UnescapeEscape(s[1..]);
      if IsSpecial(s[0]) {
        assert e == ['\\', s[0]] + Escape(s[1..]);
        assert e[2..] == Escape(s[1..]);
      } else {
        assert e == [s[0]] + Escape(s[1..]);
        assert e[1..] == Escape(s[1..]);
      }
    }
  }

  lemma {:induction false} EscapeNoHash(s: string)
    requires '#' !in s
    ensures '#' !in Escape(s)
  {
    if s != [] {
      EscapeNoHash(s[1..]);
    }
  }

  lemma {:induction false} StripEscape(s: string)
    requires '\\' !in s
    ensures StripBackslashes(Escape(s)) == s
  {
    if s != [] {
      StripConcat(EscapeChar(s[0]), Escape(s[1..]));
      StripEscape(s[1..]);
    }
  }

  lemma {:induction false} ReplaceNoHash(s: string, rep: string)
    requires '#' !in s
    ensures ReplaceHashRuns(s, rep) == s
  {
    if s != [] {
      ReplaceNoHash(s[1..], rep);
    }
  }

  /** For a URL without `#` and without `\`, deleting every backslash from its
      pattern gives the URL back between the anchors. The domain lookup of
      background.js:211 relies on this when it strips backslashes from a
      rule's filter before the substring test. */
  lemma PatternStripRoundTrip(url: string)
    requires '#' !in url && '\\' !in url
    ensures StripBackslashes(CompilePattern(url)) == "^" + url + "$"
  {
    EscapeNoHash(url);
    ReplaceNoHash(Escape(url), Wildcard);
    StripEscape(url);
    StripConcat("^" + Escape(url), "$");
    StripConcat("^", Escape(url));
  }

  // ---------------------------------------------------------------------------
  // The substitution template (background.js:484-486)

  /** The result of the numbering callback of background.js:486 started with
      counter `k`: the i-th `#` from the left becomes `\(k+i)`. */
  function NumberHashes(s: string, k: nat): string
  {
    if s == [] then []
    else if s[0] == '#' then BackRef(k) + NumberHashes(s[1..], k + 1)
    else [s[0]] + NumberHashes(s[1..], k)
  }

  /** The substitution template of a destination URL: its pieces copied as
      they are, joined by `\1`, `\2`, ... in order, one per run of `#`. */
  function Template(to: string): (r: string)
    ensures r == JoinBackRefs(Pieces(to), 1)
  {
    TemplatePieces(to, 1);
    NumberHashes(ReplaceHashRuns(to, "#"), 1)
  }

  lemma {:induction false} TemplatePieces(s: string, k: nat)
    ensures NumberHashes(ReplaceHashRuns(s, "#"), k) == JoinBackRefs(Pieces(s), k)
    decreases |s|
  {
    if s == [] {
    } else if s[0] == '#' {
      var t := SkipHashes(s);
      var y := ReplaceHashRuns(t, "#");
      assert ("#" + y)[0] == '#' && ("#" + y)[1..] == y;
      TemplatePieces(t, k + 1);
      assert ([[]] + Pieces(t))[1..] == Pieces(t);
    } else {
      var c := s[0];
      var y := ReplaceHashRuns(s[1..], "#");
      var rest := Pieces(s[1..]);
      assert ([c] + y)[0] == c && ([c] + y)[1..] == y;
      TemplatePieces(s[1..], k);
      assert ([[c] + rest[0]] + rest[1..])[1..] == rest[1..];
      if |rest| > 1 {
        assert rest == [rest[0]] + rest[1..];
      }
    }
  }

  /** The `count++` loop of background.js:484-486 over the collapsed URL. */
  method NumberPlaceholders(s: string) returns (t: string)
    ensures t == NumberHashes(s, 1)
  {
    t := [];
    var count: nat := 1;
    var i := 0;
    while i < |s|
      invariant 0 <= i <= |s|
      invariant t + NumberHashes(s[i..], count) == NumberHashes(s, 1)
    {
      NumberStep(t, s, i, count);
      if s[i] == '#' {
        t := t + BackRef(count);
        count := count + 1;
      } else {
        t := t + [s[i]];
      }
      i := i + 1;
    }
    assert s[i..] == [];
  }

  /** One step of the numbering loop: the next character moves from the
      pending input to the output. */
  lemma NumberStep(t: string, s: string, i: int, count: nat)
    requires 0 <= i < |s|
    requires t + NumberHashes(s[i..], count) == NumberHashes(s, 1)
    ensures s[i] == '#' ==> (t + BackRef(count)) + NumberHashes(s[i + 1..], count + 1) == NumberHashes(s, 1)
    ensures s[i] != '#' ==> (t + [s[i]]) + NumberHashes(s[i + 1..], count) == NumberHashes(s, 1)
  {
    assert s[i..][0] == s[i] && s[i..][1..] == s[i + 1..];
    if s[i] == '#' {
      assert NumberHashes(s[i..], count) == BackRef(count) + NumberHashes(s[i + 1..], count + 1);
    } else {
      assert NumberHashes(s[i..], count) == [s[i]] + NumberHashes(s[i + 1..], count);
    }
  }

  /** Builds the substitution template as the source does: collapse the runs,
      then number the `#` left to right. */
  method CompileTemplate(to: string) returns (sub: string)
    ensures sub == Template(to)
  {
    var collapsed := ReplaceHashRuns(to, "#");
    sub := NumberPlaceholders(collapsed);
  }

  lemma {:induction false} BackRefsNoHash(ps: seq<string>, k: nat)
    requires |ps| >= 1
    requires forall i :: 0 <= i < |ps| ==> '#' !in ps[i]
    ensures '#' !in JoinBackRefs(ps, k)
    decreases |ps|
  {
    if |ps| > 1 {
      BackRefsNoHash(ps[1..], k + 1);
      assert '#' !in BackRef(k);
    }
  }

  /** No placeholder survives in a template. */
  lemma TemplateHasNoHash(to: string)
    ensures '#' !in Template(to)
  {
    BackRefsNoHash(Pieces(to), 1);
  }

  /** A destination without placeholders is its own template: the template is
      neither escaped nor anchored (background.js:484-486). */
  lemma TemplateWithoutPlaceholders(to: string)
    requires '#' !in to
    ensures Template(to) == to
  {
    ReplaceNoHash(to, "#");
    NoHashNumbering(to, 1);
  }

  lemma {:induction false} NoHashNumbering(s: string, k: nat)
    requires '#' !in s
    ensures NumberHashes(s, k) == s
  {
    if s != [] {
      NoHashNumbering(s[1..], k);
    }
  }
}
