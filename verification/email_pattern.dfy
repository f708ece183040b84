/** The e-mail test both forms use: `/\S+@\S+\.\S+/.test(s)`, unanchored,
    so it asks whether SOME part of the string has that shape. */
module EmailPattern {

  import opened JsText

  /** `s[i..e]` is a match of the regular expression with its `@` at `a` and
      its `.` at `d`: each `\S+` a non-empty run without white space. */
  predicate MatchAt(s: string, i: int, a: int, d: int, e: int) {
    && 0 <= i < a && a + 1 < d && d + 1 < e <= |s|
    && NoWhitespace(s[i..a]) && s[a] == '@'
    && NoWhitespace(s[a + 1..d]) && s[d] == '.'
    && NoWhitespace(s[d + 1..e])
  }

  /** The regular expression's meaning: a match exists somewhere. */
  ghost predicate RegexTest(s: string) {
    exists i, a, d, e :: MatchAt(s, i, a, d, e)
  }

  /** The narrowest match around an `@` at `a` and a `.` at `d`: one
      character on each side is enough. */
  predicate ShapeAt(s: string, a: int, d: int) {
    && 1 <= a && a + 1 < d && d + 1 < |s|
    && !IsWhitespace(s[a - 1]) && s[a] == '@'
    && NoWhitespace(s[a + 1..d]) && s[d] == '.'
    && !IsWhitespace(s[d + 1])
  }

  lemma {:induction false} ShapeIffRegex(s: string)
    ensures (exists a, d :: ShapeAt(s, a, d)) <==> RegexTest(s)
  {
    if exists a, d :: ShapeAt(s, a, d) {
      var a, d :| ShapeAt(s, a, d);
      assert s[a - 1..a] == [s[a - 1]];
      assert s[d + 1..d + 2] == [s[d + 1]];
      assert MatchAt(s, a - 1, a, d, d + 2);
    }
    if RegexTest(s) {
      var i, a, d, e :| MatchAt(s, i, a, d, e);
      assert s[a - 1] == s[i..a][a - 1 - i];
      assert s[d + 1] == s[d + 1..e][0];
      assert ShapeAt(s, a, d);
    }
  }

  /** The test as the validators run it. */
  function ContainsEmail(s: string): (b: bool)
    ensures b <==> RegexTest(s)
  {
    ShapeIffRegex(s);
    exists a, d | 0 <= a < |s| && 0 <= d < |s| :: ShapeAt(s, a, d)
  }

  lemma Examples()
    ensures ContainsEmail("a@b.c")
    ensures ContainsEmail("see: x@y.z!")
    ensures !ContainsEmail("a@.c")
    ensures !ContainsEmail("a @b.c")
    ensures !ContainsEmail("   ")
  {
    assert ShapeAt("a@b.c", 1, 3);
    assert ShapeAt("see: x@y.z!", 6, 8);
  }
}
