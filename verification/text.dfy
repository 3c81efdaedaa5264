/** The string primitives the select component relies on: `toLowerCase`, `trim`
    and `includes`. Case folding covers ASCII letters only; `trim` strips exactly
    the characters ECMAScript calls WhiteSpace or LineTerminator. */
module Text {

  /** ECMAScript WhiteSpace and LineTerminator code points: the set `String.prototype.trim`
      removes and the regular-expression class `\s` matches. */
  predicate IsSpace(c: char) {
    var n := c as int;
    || n == 0x09 || n == 0x0A || n == 0x0B || n == 0x0C || n == 0x0D
    || n == 0x20 || n == 0xA0 || n == 0x1680
    || (0x2000 <= n <= 0x200A)
    || n == 0x2028 || n == 0x2029 || n == 0x202F || n == 0x205F
    || n == 0x3000 || n == 0xFEFF
  }

  predicate IsUpper(c: char) {
    'A' <= c <= 'Z'
  }

  function LowerChar(c: char): char {
    if IsUpper(c) then (c as int + 32) as char else c
  }

  /** `toLowerCase`, restricted to ASCII letters. */
  function Lower(s: string): string {
    seq(|s|, i requires 0 <= i < |s| => LowerChar(s[i]))
  }

  /** Folding never turns a non-space into a space or the other way round. */
  lemma LowerCharKeepsSpace(c: char)
    ensures IsSpace(LowerChar(c)) <==> IsSpace(c)
  {
  }

  function TrimStart(s: string): (r: string)
    ensures |r| <= |s| && r == s[|s| - |r|..]
    ensures |r| > 0 ==> !IsSpace(r[0])
    ensures forall i :: 0 <= i < |s| - |r| ==> IsSpace(s[i])
  {
    if |s| > 0 && IsSpace(s[0]) then TrimStart(s[1..]) else s
  }

  function TrimEnd(s: string): (r: string)
    ensures |r| <= |s| && r == s[..|r|]
    ensures |r| > 0 ==> !IsSpace(r[|r| - 1])
    ensures forall i :: |r| <= i < |s| ==> IsSpace(s[i])
  {
    if |s| > 0 && IsSpace(s[|s| - 1]) then TrimEnd(s[..|s| - 1]) else s
  }

  /** `trim`: the longest slice of `s` that neither starts nor ends with white space. */
  function Trim(s: string): string {
    TrimEnd(TrimStart(s))
  }

  /** `needle` occurs in `hay` starting at offset `i`. */
  predicate OccursAt(hay: string, needle: string, i: int) {
    0 <= i && i + |needle| <= |hay| && hay[i..i + |needle|] == needle
  }

  /** `includes`: `needle` occurs in `hay` at some offset. */
  predicate Contains(hay: string, needle: string) {
    exists i :: 0 <= i <= |hay| && OccursAt(hay, needle, i)
  }

  /** A string is contained in any string that has it at a known offset. */
  lemma ContainsAt(hay: string, needle: string, i: nat)
    requires i + |needle| <= |hay|
    requires hay[i..i + |needle|] == needle
    ensures Contains(hay, needle)
  {
    assert OccursAt(hay, needle, i);
  }

  lemma {:induction false} TrimStartOfLower(s: string)
    ensures TrimStart(Lower(s)) == Lower(TrimStart(s))
    decreases |s|
  {
    if |s| > 0 {
      LowerCharKeepsSpace(s[0]);
      assert Lower(s)[0] == LowerChar(s[0]);
      if IsSpace(s[0]) {
        assert Lower(s)[1..] == Lower(s[1..]);
        TrimStartOfLower(s[1..]);
      }
    }
  }

  lemma {:induction false} TrimEndOfLower(s: string)
    ensures TrimEnd(Lower(s)) == Lower(TrimEnd(s))
    decreases |s|
  {
    if |s| > 0 {
      var k := |s| - 1;
      LowerCharKeepsSpace(s[k]);
      assert Lower(s)[k] == LowerChar(s[k]);
      if IsSpace(s[k]) {
        assert Lower(s)[..k] == Lower(s[..k]);
        TrimEndOfLower(s[..k]);
      }
    }
  }

  /** Lower-casing and trimming commute, so trimming the lower-cased query gives the
      lower-cased trimmed query; in particular one is empty exactly when the other is. */
  lemma TrimOfLower(s: string)
    ensures Trim(Lower(s)) == Lower(Trim(s))
    ensures |Trim(Lower(s))| == |Trim(s)|
  {
    TrimStartOfLower(s);
    TrimEndOfLower(TrimStart(s));
  }
}
