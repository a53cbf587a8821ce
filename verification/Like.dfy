/** The meaning of LIKE and ILIKE patterns, and of the two patterns that `MediaRepository.List` builds from
    user input (internal/repository/media.go).

    '%' stands for any string, '_' for any character, and a backslash makes the next character literal (the
    default escape of PostgreSQL). ILIKE compares after lowering both sides; `Lower` lowers ASCII letters. */
module LikePatterns {

  function LowerChar(c: char): char {
    if 'A' <= c <= 'Z' then (c as int + 32) as char else c
  }

  function Lower(s: string): (r: string)
    ensures |r| == |s|
  {
    seq(|s|, i requires 0 <= i < |s| => LowerChar(s[i]))
  }

  predicate Matches(pattern: string, x: string)
    decreases |pattern| + |x|
  {
    if pattern == "" then x == ""
    else if pattern[0] == '%' then
      Matches(pattern[1..], x) || (x != "" && Matches(pattern, x[1..]))
    else if pattern[0] == '_' then
      x != "" && Matches(pattern[1..], x[1..])
    else if pattern[0] == '\\' then
      // a pattern that ends in its escape is an error; List builds none, as both its patterns end in '%'
      |pattern| > 1 && x != "" && x[0] == pattern[1] && Matches(pattern[2..], x[1..])
    else
      x != "" && x[0] == pattern[0] && Matches(pattern[1..], x[1..])
  }

  predicate Like(x: string, pattern: string) {
    Matches(pattern, x)
  }

  predicate ILike(x: string, pattern: string) {
    Matches(Lower(pattern), Lower(x))
  }

  predicate IsMeta(c: char) {
    c == '%' || c == '_' || c == '\\'
  }

  predicate Plain(s: string) {
    forall i :: 0 <= i < |s| ==> !IsMeta(s[i])
  }

  ghost predicate Occurs(s: string, x: string) {
    exists i :: 0 <= i <= |x| && s <= x[i..]
  }

  /** The same character, or the two cases of one ASCII letter. */
  predicate SameLetter(a: char, b: char) {
    || a == b
    || ('A' <= a <= 'Z' && b as int == a as int + 32)
    || ('A' <= b <= 'Z' && a as int == b as int + 32)
  }

  ghost predicate OccursAt(s: string, x: string, i: nat) {
    i + |s| <= |x| && forall k :: 0 <= k < |s| ==> SameLetter(s[k], x[i + k])
  }

  ghost predicate OccursUpToCase(s: string, x: string) {
    exists i: nat :: OccursAt(s, x, i)
  }

  lemma LowerAt(s: string, x: string, i: nat)
    requires i <= |x|
    ensures Lower(s) <= Lower(x)[i..] <==> OccursAt(s, x, i)
  {
    var rest := Lower(x)[i..];
    assert forall k :: 0 <= k < |s| && i + k < |x| ==>
        (SameLetter(s[k], x[i + k]) <==> Lower(s)[k] == rest[k]);
    if OccursAt(s, x, i) {
      assert rest[..|s|] == Lower(s);
    }
  }

  lemma LowerMeansCase(s: string, x: string)
    ensures Occurs(Lower(s), Lower(x)) <==> OccursUpToCase(s, x)
  {
    forall i: nat | i <= |x| ensures Lower(s) <= Lower(x)[i..] <==> OccursAt(s, x, i) {
      LowerAt(s, x, i);
    }
    if OccursUpToCase(s, x) {
      var i: nat :| OccursAt(s, x, i);
      assert Lower(s) <= Lower(x)[i..];
    }
  }

  /** `_` stands for exactly one character, whichever it is, and a backslash makes the next character stand for
      itself. */
  lemma OneCharacter(c: char, rest: string, x: string)
    ensures Matches("_" + rest, [c] + x) <==> Matches(rest, x)
    ensures Matches(['\\', c] + rest, [c] + x) <==> Matches(rest, x)
    ensures !Matches("_" + rest, "") && !Matches(['\\', c] + rest, "")
    ensures x != "" && x[0] != c ==> !Matches(['\\', c] + rest, x)
  {
    assert ("_" + rest)[1..] == rest && (['\\', c] + rest)[2..] == rest && ([c] + x)[1..] == x;
  }

  // ---------------------------------------------------------------------------
  // Patterns from plain text
  // ---------------------------------------------------------------------------

  lemma {:induction false} PercentMatches(rest: string, x: string)
    ensures Matches("%" + rest, x) <==> exists i :: 0 <= i <= |x| && Matches(rest, x[i..])
    decreases |x|
  {
    var p := "%" + rest;
    assert p[1..] == rest && x[0..] == x;
    if x != "" {
      PercentMatches(rest, x[1..]);
      forall i | 0 <= i <= |x[1..]| ensures x[1..][i..] == x[i + 1..] {}
      if i :| 0 <= i <= |x| && Matches(rest, x[i..]) {
        assert i > 0 ==> x[1..][i - 1..] == x[i..];
      }
    }
  }

  lemma AnythingMatchesPercent(x: string)
    ensures Matches("%", x)
  {
    PercentMatches("", x);
    assert "%" + "" == "%" && x[|x|..] == "";
  }

  lemma {:induction false} PlainMatches(s: string, rest: string, x: string)
    requires Plain(s)
    ensures Matches(s + rest, x) <==> s <= x && Matches(rest, x[|s|..])
  {
    if s == "" {
      assert s + rest == rest && x[0..] == x;
    } else {
      assert (s + rest)[0] == s[0] && (s + rest)[1..] == s[1..] + rest;
      if x != "" {
        PlainMatches(s[1..], rest, x[1..]);
        if s[0] == x[0] && s[1..] <= x[1..] {
          assert x == [x[0]] + x[1..];
          assert x[1..][|s| - 1..] == x[|s|..];
        }
      }
    }
  }

  lemma PlainPrefix(s: string, x: string)
    requires Plain(s)
    ensures Matches(s + "%", x) <==> s <= x
  {
    PlainMatches(s, "%", x);
    if s <= x {
      AnythingMatchesPercent(x[|s|..]);
    }
  }

  lemma PlainOccurs(s: string, x: string)
    requires Plain(s)
    ensures Matches("%" + s + "%", x) <==> Occurs(s, x)
  {
    assert "%" + s + "%" == "%" + (s + "%");
    PercentMatches(s + "%", x);
    forall i | 0 <= i <= |x| ensures Matches(s + "%", x[i..]) <==> s <= x[i..] {
      PlainPrefix(s, x[i..]);
    }
  }

  // ---------------------------------------------------------------------------
  // Patterns from text with metacharacters
  // ---------------------------------------------------------------------------

  /** A string that the text, read as a pattern before a '%', matches, although it does not contain the text. */
  function Bare(s: string): (r: string)
    ensures |r| <= |s|
  {
    if s == "" then ""
    else if s[0] == '%' then Bare(s[1..])
    else if s[0] == '_' then ['a'] + Bare(s[1..])
    else if s[0] == '\\' then (if |s| == 1 then "%" else [s[1]] + Bare(s[2..]))
    else [s[0]] + Bare(s[1..])
  }

  lemma {:induction false} BareMatches(s: string)
    ensures Matches(s + "%", Bare(s))
  {
    var p := s + "%";
    if s == "" {
      AnythingMatchesPercent("");
    } else if s[0] == '\\' {
      if |s| == 1 {
        assert p[2..] == "" && Bare(s)[1..] == "";
      } else {
        assert p[1] == s[1] && p[2..] == s[2..] + "%" && Bare(s)[1..] == Bare(s[2..]);
        BareMatches(s[2..]);
      }
    } else {
      assert p[0] == s[0] && p[1..] == s[1..] + "%";
      BareMatches(s[1..]);
      assert s[0] != '%' ==> Bare(s)[1..] == Bare(s[1..]);
    }
  }

  lemma {:induction false} BareDiffers(s: string)
    requires !Plain(s)
    ensures Bare(s) != s
  {
    if !IsMeta(s[0]) {
      assert !Plain(s[1..]) by {
        var i :| 0 <= i < |s| && IsMeta(s[i]);
        assert s[1..][i - 1] == s[i];
      }
      BareDiffers(s[1..]);
      assert Bare(s)[1..] == Bare(s[1..]);
    } else if s[0] == '\\' && |s| > 1 {
      assert |Bare(s)| < |s|;
    }
  }

  lemma BareAvoids(s: string)
    requires !Plain(s)
    ensures !(s <= Bare(s)) && !Occurs(s, Bare(s))
  {
    BareDiffers(s);
    assert Bare(s)[0..] == Bare(s);
    forall i | 0 <= i <= |Bare(s)| ensures !(s <= Bare(s)[i..]) {}
  }

  // ---------------------------------------------------------------------------
  // Lowering
  // ---------------------------------------------------------------------------

  lemma LowerFacts(s: string, t: string)
    ensures Lower(s + t) == Lower(s) + Lower(t) && Lower("%") == "%"
    ensures Plain(Lower(s)) <==> Plain(s)
    ensures Lower(Lower(s)) == Lower(s)
  {
    forall i | 0 <= i < |s| ensures IsMeta(Lower(s)[i]) <==> IsMeta(s[i]) {}
  }

  lemma {:induction false} BareIsLower(s: string)
    requires Lower(s) == s
    ensures Lower(Bare(s)) == Bare(s)
  {
    if s != "" {
      forall k | 0 <= k <= |s| ensures Lower(s[k..]) == s[k..] {
        forall i | 0 <= i < |s[k..]| ensures LowerChar(s[k..][i]) == s[k..][i] {
          assert Lower(s)[k + i] == s[k + i];
        }
      }
      assert forall i :: 0 <= i < |s| ==> Lower(s)[i] == LowerChar(s[i]);
      if s[0] == '\\' {
        if |s| > 1 {
          BareIsLower(s[2..]);
          LowerFacts([s[1]], Bare(s[2..]));
          assert LowerChar(s[1]) == s[1];
        }
      } else {
        BareIsLower(s[1..]);
        LowerFacts([if s[0] == '_' then 'a' else s[0]], Bare(s[1..]));
        assert LowerChar(s[0]) == s[0];
      }
    }
  }

  // ---------------------------------------------------------------------------
  // Main results
  // ---------------------------------------------------------------------------

  /** The search pattern means "contains the text, up to case" if and only if the text has no metacharacter. */
  lemma SearchMeansSubstring(s: string)
    ensures (forall x :: ILike(x, "%" + s + "%") <==> OccursUpToCase(s, x)) <==> Plain(s)
  {
    LowerFacts(s, "");
    LowerFacts("%" + s, "%");
    LowerFacts("%", s);
    assert Lower("%" + s + "%") == "%" + Lower(s) + "%";
    if Plain(s) {
      forall x ensures ILike(x, "%" + s + "%") <==> OccursUpToCase(s, x) {
        PlainOccurs(Lower(s), Lower(x));
        LowerMeansCase(s, x);
      }
    } else {
      var x := Bare(Lower(s));
      BareIsLower(Lower(s));
      BareMatches(Lower(s));
      BareAvoids(Lower(s));
      var p := "%" + Lower(s) + "%";
      assert p[1..] == Lower(s) + "%";
      LowerMeansCase(s, x);
      assert ILike(x, "%" + s + "%") && !OccursUpToCase(s, x);
    }
  }

  /** The type pattern means "starts with the text" if and only if the text has no metacharacter. */
  lemma TypeMeansPrefix(s: string)
    ensures (forall x :: Like(x, s + "%") <==> s <= x) <==> Plain(s)
  {
    if Plain(s) {
      forall x ensures Like(x, s + "%") <==> s <= x {
        PlainPrefix(s, x);
      }
    } else {
      BareMatches(s);
      BareAvoids(s);
      assert Like(Bare(s), s + "%") && !(s <= Bare(s));
    }
  }
}
