// Searching for a typed text with SQL LIKE (escapeLike in src/lib/airline-search.ts). The
// meaning of a pattern is that of section 9.7.1 of the PostgreSQL manual with ESCAPE '!'.
module LikePattern {

  /** A pattern that ends in a lone escape character is an error there, and matches nothing here. */
  predicate Like(s: string, pattern: string)
    decreases |pattern|, |s|
  {
    if pattern == [] then s == []
    else if pattern[0] == '!' then
      |pattern| > 1 && s != [] && s[0] == pattern[1] && Like(s[1..], pattern[2..])
    else if pattern[0] == '%' then
      Like(s, pattern[1..]) || (s != [] && Like(s[1..], pattern))
    else
      s != [] && (pattern[0] == '_' || s[0] == pattern[0]) && Like(s[1..], pattern[1..])
  }

  /** An exclamation mark is put before each of the three special characters. */
  function EscapeLike(text: string): string {
    if text == [] then []
    else (if text[0] in "!%_" then ['!', text[0]] else [text[0]]) + EscapeLike(text[1..])
  }

  lemma EscapedCharacter(s: string, c: char, tail: string)
    ensures Like(s, ['!', c] + tail) <==> s != [] && s[0] == c && Like(s[1..], tail)
  {
    assert (['!', c] + tail)[2..] == tail;
  }

  lemma PlainCharacter(s: string, c: char, tail: string)
    requires c !in "!%_"
    ensures Like(s, [c] + tail) <==> s != [] && s[0] == c && Like(s[1..], tail)
  {
    assert ([c] + tail)[1..] == tail;
    assert '!' in "!%_" && '%' in "!%_" && '_' in "!%_";
  }

  /** Escaped text at the head of a pattern matches that text and nothing else. */
  lemma {:induction false} EscapedHead(s: string, text: string, rest: string)
    ensures Like(s, EscapeLike(text) + rest) <==> text <= s && Like(s[|text|..], rest)
    decreases |text|
  {
    hide Like;
    if text == [] {
      assert EscapeLike(text) + rest == rest && s[0..] == s;
    } else {
      var tail := EscapeLike(text[1..]) + rest;
      if text[0] in "!%_" {
        assert EscapeLike(text) + rest == ['!', text[0]] + tail;
        EscapedCharacter(s, text[0], tail);
      } else {
        assert EscapeLike(text) + rest == [text[0]] + tail;
        PlainCharacter(s, text[0], tail);
      }
      if s != [] {
        EscapedHead(s[1..], text[1..], rest);
        assert text <= s ==> s[1..][|text| - 1..] == s[|text|..];
        HeadAndTail(s, text);
      }
    }
  }

  lemma HeadAndTail(s: string, text: string)
    requires s != [] && text != []
    ensures text <= s <==> text[0] == s[0] && text[1..] <= s[1..]
  {
    if text[0] == s[0] && text[1..] <= s[1..] {
      assert text == [text[0]] + text[1..] && s == [s[0]] + s[1..];
    }
  }

  /** Escaped text is a pattern for itself only. */
  lemma EscapedMatchesItself(s: string, text: string)
    ensures Like(s, EscapeLike(text)) <==> s == text
  {
    EscapedHead(s, text, "");
    assert EscapeLike(text) + "" == EscapeLike(text);
  }

  lemma {:induction false} PercentMatchesAll(s: string)
    ensures Like(s, "%")
    decreases |s|
  {
    if s != [] {
      PercentMatchesAll(s[1..]);
    }
  }

  /** A pattern after % matches what the pattern matches some suffix of. */
  lemma {:induction false} PercentSkips(s: string, pattern: string)
    ensures Like(s, "%" + pattern) <==> exists i :: 0 <= i <= |s| && Like(s[i..], pattern)
    decreases |s|
  {
    assert ("%" + pattern)[1..] == pattern && s[0..] == s;
    if s != [] {
      PercentSkips(s[1..], pattern);
      if i :| 0 <= i <= |s[1..]| && Like(s[1..][i..], pattern) {
        assert s[1..][i..] == s[i + 1..];
      }
      if i :| 0 < i <= |s| && Like(s[i..], pattern) {
        assert s[1..][i - 1..] == s[i..];
      }
    }
  }

  predicate OccursAt(s: string, text: string, i: nat) {
    i + |text| <= |s| && s[i..i + |text|] == text
  }

  /** The search pattern finds the typed text wherever it occurs, and only there, whatever characters it has. */
  lemma SearchFindsSubstring(s: string, text: string)
    ensures Like(s, "%" + EscapeLike(text) + "%") <==> exists i: nat :: OccursAt(s, text, i)
  {
    hide Like;
    var pattern := EscapeLike(text) + "%";
    assert "%" + EscapeLike(text) + "%" == "%" + pattern;
    PercentSkips(s, pattern);
    forall i: nat | i <= |s| ensures Like(s[i..], pattern) <==> OccursAt(s, text, i) {
      PrefixSearch(s[i..], text);
      if i + |text| <= |s| {
        assert s[i..][..|text|] == s[i..i + |text|];
      }
    }
  }

  /** A prefix search likewise. */
  lemma PrefixSearch(s: string, text: string)
    ensures Like(s, EscapeLike(text) + "%") <==> text <= s
  {
    EscapedHead(s, text, "%");
    if text <= s {
      PercentMatchesAll(s[|text|..]);
    }
  }

  /** Without escaping, a typed wildcard finds names that do not contain it. */
  lemma UnescapedFindsMore()
    ensures Like("AB", "%" + "_B" + "%") && !(exists i: nat :: OccursAt("AB", "_B", i))
    ensures !Like("AB", "%" + EscapeLike("_B") + "%")
  {
    SearchFindsSubstring("AB", "_B");
    assert "AB"[0..2] == "AB";
    assert "%" + "_B" + "%" == "%" + ("_B" + "%");
    assert "AB"[0..] == "AB";
    PercentMatchesAll("");
    assert ("_B" + "%")[1..] == "B%" && "AB"[1..] == "B" && "B%"[1..] == "%" && "B"[1..] == "";
    assert Like("B", "B%") && Like("AB", "_B" + "%");
    PercentSkips("AB", "_B" + "%");
  }
}
