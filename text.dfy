/** String helpers: the parts of JavaScript's string API the extension uses
    (`toLowerCase`, `includes`, and `replace(/\\/g, '')`). */
module Text {

  /** Lower-case of one character, for the ASCII letters. */
  function LowerChar(c: char): char {
    if 'A' <= c <= 'Z' then (c as int + 32) as char else c
  }

  /** `s.toLowerCase()`, restricted to ASCII letters. */
  function ToLower(s: string): string {
    seq(|s|, i requires 0 <= i < |s| => LowerChar(s[i]))
  }

  predicate IsUpper(c: char) {
    'A' <= c <= 'Z'
  }

  /** A lower-cased string holds no upper-case letter. */
  lemma ToLowerHasNoUpper(s: string)
    ensures forall c | c in ToLower(s) :: !IsUpper(c)
  {
    forall c | c in ToLower(s) ensures !IsUpper(c) {
      var i :| 0 <= i < |s| && ToLower(s)[i] == c;
      assert c == LowerChar(s[i]);
    }
  }

  /** `needle` occurs in `hay` starting at index `i`. */
  predicate OccursAt(hay: string, needle: string, i: int) {
    0 <= i && i + |needle| <= |hay| && hay[i..i + |needle|] == needle
  }

  /** `hay.includes(needle)`. */
  predicate Contains(hay: string, needle: string) {
    exists i :: 0 <= i <= |hay| - |needle| && OccursAt(hay, needle, i)
  }

  /** Every character of a contained string is a character of the container. */
  lemma ContainsChars(hay: string, needle: string)
    requires Contains(hay, needle)
    ensures forall c | c in needle :: c in hay
  {
    var i :| 0 <= i <= |hay| - |needle| && OccursAt(hay, needle, i);
    forall c | c in needle ensures c in hay {
      var j :| 0 <= j < |needle| && needle[j] == c;
      assert hay[i..i + |needle|][j] == hay[i + j];
    }
  }

  /** Whatever `b` contains, `a + b + c` contains too. */
  lemma ContainsInfix(a: string, b: string, c: string, needle: string)
    requires Contains(b, needle)
    ensures Contains(a + b + c, needle)
  {
    var i :| 0 <= i <= |b| - |needle| && OccursAt(b, needle, i);
    var s := a + b + c;
    assert s[|a| + i..|a| + i + |needle|] == b[i..i + |needle|];
    assert OccursAt(s, needle, |a| + i);
  }

  /** `s.replace(/\\/g, '')`: every backslash deleted. */
  function StripBackslashes(s: string): string {
    if s == [] then []
    else (if s[0] == '\\' then [] else [s[0]]) + StripBackslashes(s[1..])
  }

  lemma {:induction false} StripConcat(a: string, b: string)
    ensures StripBackslashes(a + b) == StripBackslashes(a) + StripBackslashes(b)
  {
    if a == [] {
      assert a + b == b;
    } else {
      assert (a + b)[0] == a[0];
      assert (a + b)[1..] == a[1..] + b;
      StripConcat(a[1..], b);
    }
  }

  /** A string without backslashes is left as it is. */
  lemma {:induction false} StripNoBackslash(s: string)
    requires '\\' !in s
    ensures StripBackslashes(s) == s
  {
    if s != [] {
      StripNoBackslash(s[1..]);
    }
  }
}
