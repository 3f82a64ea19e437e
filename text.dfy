/**
 * The answer normalisation of the quiz (components/Quiz.tsx, checkAnswer):
 * both the typed answer and the card's solution are trimmed and lower-cased
 * before they are compared. Only ASCII whitespace and the letters A-Z are
 * modelled; JavaScript's Unicode tables are not.
 */
module Text {

  /** The ASCII characters `String.prototype.trim` removes. */
  predicate IsWhitespace(c: char) {
    c == ' ' || c == '\t' || c == '\n' || c == '\r' || c == '\U{B}' || c == '\U{C}'
  }

  predicate AllWhitespace(s: string) {
    forall i :: 0 <= i < |s| ==> IsWhitespace(s[i])
  }

  /** Drops the leading whitespace of `s`. */
  function TrimStart(s: string): (r: string)
    ensures |r| <= |s| && r == s[|s| - |r|..]
    ensures AllWhitespace(s[..|s| - |r|])
    ensures r != [] ==> !IsWhitespace(r[0])
  {
    if s != [] && IsWhitespace(s[0]) then TrimStart(s[1..]) else s
  }

  /** Drops the trailing whitespace of `s`. */
  function TrimEnd(s: string): (r: string)
    ensures |r| <= |s| && r == s[..|r|]
    ensures AllWhitespace(s[|r|..])
    ensures r != [] ==> !IsWhitespace(r[|r| - 1])
  {
    if s != [] && IsWhitespace(s[|s| - 1]) then TrimEnd(s[..|s| - 1]) else s
  }

  /** `String.prototype.trim`: the slice of `s` between its leading and trailing whitespace. */
  function Trim(s: string): (r: string)
    ensures var k := |s| - |TrimStart(s)|;
      k + |r| <= |s| && r == s[k..k + |r|] && AllWhitespace(s[..k]) && AllWhitespace(s[k + |r|..])
    ensures r != [] ==> !IsWhitespace(r[0]) && !IsWhitespace(r[|r| - 1])
  {
    var t := TrimStart(s);
    var r := TrimEnd(t);
    SliceOfSlice(s, t, r);
    r
  }

  lemma SliceOfSlice(s: string, t: string, r: string)
    requires |t| <= |s| && t == s[|s| - |t|..]
    requires |r| <= |t| && r == t[..|r|] && AllWhitespace(t[|r|..])
    ensures var k := |s| - |t|; r == s[k..k + |r|] && AllWhitespace(s[k + |r|..])
  {
    var k := |s| - |t|;
    assert t[|r|..] == s[k + |r|..];
  }

  function LowerChar(c: char): (d: char)
    ensures IsWhitespace(d) <==> IsWhitespace(c)
    ensures !('A' <= d <= 'Z')
  {
    if 'A' <= c <= 'Z' then (c as int - 'A' as int + 'a' as int) as char else c
  }

  /** `String.prototype.toLowerCase`, restricted to ASCII letters. */
  function ToLower(s: string): (r: string)
    ensures |r| == |s|
    ensures forall i :: 0 <= i < |s| ==> r[i] == LowerChar(s[i])
  {
    if s == [] then [] else [LowerChar(s[0])] + ToLower(s[1..])
  }

  /** What checkAnswer compares: `text.trim().toLowerCase()`. */
  function Normalize(s: string): string {
    ToLower(Trim(s))
  }

  /** The grading relation: an answer is correct iff it normalises to the solution's normal form. */
  predicate Matches(answer: string, solution: string) {
    Normalize(answer) == Normalize(solution)
  }

  lemma {:induction false} TrimStartIgnoresWhitespacePrefix(p: string, s: string)
    requires AllWhitespace(p)
    ensures TrimStart(p + s) == TrimStart(s)
  {
    if p != [] {
      assert (p + s)[1..] == p[1..] + s;
      TrimStartIgnoresWhitespacePrefix(p[1..], s);
    } else {
      assert p + s == s;
    }
  }

  lemma {:induction false} TrimEndIgnoresWhitespaceSuffix(s: string, q: string)
    requires AllWhitespace(q)
    ensures TrimEnd(s + q) == TrimEnd(s)
  {
    if q != [] {
      assert (s + q)[..|s + q| - 1] == s + q[..|q| - 1];
      TrimEndIgnoresWhitespaceSuffix(s, q[..|q| - 1]);
    } else {
      assert s + q == s;
    }
  }

  /** A string that does not end in whitespace keeps that end after leading whitespace is dropped. */
  lemma {:induction false} TrimStartKeepsSuffix(s: string, q: string)
    requires AllWhitespace(q)
    requires TrimStart(s) != []
    ensures TrimStart(s + q) == TrimStart(s) + q
  {
    if IsWhitespace(s[0]) {
      assert (s + q)[1..] == s[1..] + q;
      TrimStartKeepsSuffix(s[1..], q);
    }
  }

  /** Surrounding whitespace never changes what `Trim` returns. */
  lemma TrimIgnoresSurroundingWhitespace(p: string, s: string, q: string)
    requires AllWhitespace(p) && AllWhitespace(q)
    ensures Trim(p + s + q) == Trim(s)
  {
    assert p + s + q == p + (s + q);
    TrimStartIgnoresWhitespacePrefix(p, s + q);
    if TrimStart(s) == [] {
      assert AllWhitespace(s);
      AllWhitespaceConcat(s, q);
      TrimStartIgnoresWhitespacePrefix(s + q, []);
      assert s + q + [] == s + q;
      assert TrimStart(s + q) == [];
    } else {
      TrimStartKeepsSuffix(s, q);
      TrimEndIgnoresWhitespaceSuffix(TrimStart(s), q);
    }
  }

  lemma AllWhitespaceConcat(s: string, q: string)
    requires AllWhitespace(s) && AllWhitespace(q)
    ensures AllWhitespace(s + q)
  {
    assert forall i :: 0 <= i < |s + q| ==> (s + q)[i] == (if i < |s| then s[i] else q[i - |s|]);
  }

  /** Lower-casing leaves whitespace where it is, so it commutes with trimming. */
  lemma {:induction false} TrimStartLower(s: string)
    ensures ToLower(TrimStart(s)) == TrimStart(ToLower(s))
  {
    if s != [] {
      assert ToLower(s)[1..] == ToLower(s[1..]);
      TrimStartLower(s[1..]);
    }
  }

  lemma {:induction false} TrimEndLower(s: string)
    ensures ToLower(TrimEnd(s)) == TrimEnd(ToLower(s))
  {
    if s != [] {
      assert ToLower(s)[..|s| - 1] == ToLower(s[..|s| - 1]);
      TrimEndLower(s[..|s| - 1]);
    }
  }

  lemma TrimLower(s: string)
    ensures ToLower(Trim(s)) == Trim(ToLower(s))
  {
    TrimStartLower(s);
    TrimEndLower(TrimStart(s));
  }

  /** Grading ignores whitespace around the answer: `" Paris\t"` grades like `"Paris"`. */
  lemma MatchesIgnoresSurroundingWhitespace(p: string, answer: string, q: string, solution: string)
    requires AllWhitespace(p) && AllWhitespace(q)
    ensures Matches(p + answer + q, solution) <==> Matches(answer, solution)
  {
    TrimIgnoresSurroundingWhitespace(p, answer, q);
  }

  /** Grading is case-insensitive: answers equal up to A-Z case grade the same. */
  lemma MatchesIgnoresCase(a: string, b: string, solution: string)
    requires ToLower(a) == ToLower(b)
    ensures Matches(a, solution) <==> Matches(b, solution)
  {
    TrimLower(a);
    TrimLower(b);
  }

  /** Trimming an already trimmed string changes nothing. */
  lemma TrimIdempotent(s: string)
    ensures Trim(Trim(s)) == Trim(s)
  {
    var t := Trim(s);
    if t != [] {
      assert TrimStart(t) == t;
      assert TrimEnd(t) == t;
    }
  }

  /** The normal form is a fixed point: normalising twice is normalising once. */
  lemma NormalizeIdempotent(s: string)
    ensures Normalize(Normalize(s)) == Normalize(s)
  {
    var t := Trim(s);
    calc {
      Normalize(Normalize(s));
      ToLower(Trim(ToLower(t)));
      { TrimLower(t); }
      ToLower(ToLower(Trim(t)));
      { TrimIdempotent(s); }
      ToLower(ToLower(t));
      { LowerIdempotent(t); }
      ToLower(t);
    }
  }

  lemma {:induction false} LowerIdempotent(s: string)
    ensures ToLower(ToLower(s)) == ToLower(s)
  {
    if s != [] {
      assert ToLower(s)[1..] == ToLower(s[1..]);
      LowerIdempotent(s[1..]);
    }
  }

  /** The example the grading is known for: `" Paris "` against `"paris"` is correct. */
  lemma ParisGradesCorrect()
    ensures Matches(" Paris ", "paris")
  {
    var space := [' '];
    assert AllWhitespace(space);
    assert " Paris " == space + "Paris" + space;
    MatchesIgnoresSurroundingWhitespace(space, "Paris", space, "paris");
    LowerOfParis();
    MatchesIgnoresCase("Paris", "paris", "paris");
  }

  lemma LowerOfParis()
    ensures ToLower("Paris") == ToLower("paris")
  {
    assert LowerChar('P') == 'p';
    assert "Paris"[1..] == "aris" && "paris"[1..] == "aris";
  }
}
