/**
 * SQL LIKE with the escape character `\` (section 8.5 of ISO/IEC 9075-2) and the search pattern that
 * `list_cases` builds from user input.
 */
module LikeSearch {
  /** `%` matches any text, `_` any one character, `\x` the character `x`, anything else itself. */
  predicate Like(text: string, pattern: string)
    decreases |pattern|, |text|
  {
    if pattern == "" then text == ""
    else if pattern[0] == '%' then Like(text, pattern[1..]) || (text != "" && Like(text[1..], pattern))
    else if text == "" then false
    else if pattern[0] == '_' then Like(text[1..], pattern[1..])
    else if pattern[0] == '\\' then |pattern| > 1 && text[0] == pattern[1] && Like(text[1..], pattern[2..])
    else text[0] == pattern[0] && Like(text[1..], pattern[1..])
  }

  predicate Special(c: char) { c == '%' || c == '_' || c == '\\' }

  /** No character of `p` means anything but itself. */
  ghost predicate Plain(p: string) { forall i :: 0 <= i < |p| ==> !Special(p[i]) }

  lemma {:induction false} PercentMatchesAll(text: string)
    ensures Like(text, "%")
  {
    assert "%"[1..] == "";
    if text != "" {
      PercentMatchesAll(text[1..]);
    }
  }

  /** `p LIKE prefix || '%'` is a prefix test as long as the prefix is plain. */
  lemma {:induction false} LikePrefix(text: string, prefix: string)
    requires Plain(prefix)
    ensures Like(text, prefix + "%") <==> prefix <= text
  {
    if prefix == "" {
      assert prefix + "%" == "%";
      PercentMatchesAll(text);
    } else {
      assert (prefix + "%")[1..] == prefix[1..] + "%" && (prefix + "%")[0] == prefix[0];
      if text != "" {
        LikePrefix(text[1..], prefix[1..]);
        assert prefix <= text <==> prefix[0] == text[0] && prefix[1..] <= text[1..];
      }
    }
  }

  // --------------------------------------------------------- the search term

  /** The characters `str.strip()` removes. */
  predicate IsSpace(c: char) {
    var n := c as int;
    || 9 <= n <= 13 || 0x1C <= n <= 0x20 || n == 0x85 || n == 0xA0 || n == 0x1680 || 0x2000 <= n <= 0x200A
    || n == 0x2028 || n == 0x2029 || n == 0x202F || n == 0x205F || n == 0x3000
  }

  /** `str.strip()`. */
  function Strip(s: string): string {
    if s == "" then ""
    else if IsSpace(s[0]) then Strip(s[1..])
    else if IsSpace(s[|s| - 1]) then Strip(s[..|s| - 1])
    else s
  }

  ghost predicate AllSpace(s: string) { forall i :: 0 <= i < |s| ==> IsSpace(s[i]) }

  /** No white space at either end. */
  ghost predicate Trimmed(s: string) { s == "" || (!IsSpace(s[0]) && !IsSpace(s[|s| - 1])) }

  /** Among the ASCII characters white space is the blank, five layout controls and four separators. */
  lemma AsciiSpaces(c: char)
    requires c < '\U{80}'
    ensures IsSpace(c) <==>
            c in {' ', '\t', '\n', '\U{0B}', '\U{0C}', '\r', '\U{1C}', '\U{1D}', '\U{1E}', '\U{1F}'}
  {
  }

  /** Stripping takes the white space off both ends and nothing else. */
  lemma {:induction false} StripIs(before: string, core: string, after: string)
    requires AllSpace(before) && AllSpace(after) && Trimmed(core)
    ensures Strip(before + core + after) == core
    decreases |before| + |after|
  {
    var s := before + core + after;
    if before != "" {
      StripIs(before[1..], core, after);
      assert s[1..] == before[1..] + core + after;
    } else if after == "" {
      assert s == core;
    } else if core == "" {
      StripIs("", core, after[1..]);
      assert s[1..] == "" + core + after[1..];
    } else {
      var front := after[..|after| - 1];
      StripIs("", core, front);
      assert s[..|s| - 1] == "" + core + front;
    }
  }

  lemma {:induction false} StripEmptyIff(s: string)
    ensures Strip(s) == "" <==> AllSpace(s)
  {
    if s != "" {
      if IsSpace(s[0]) {
        StripEmptyIff(s[1..]);
        assert s == [s[0]] + s[1..];
      } else if IsSpace(s[|s| - 1]) {
        StripEmptyIff(s[..|s| - 1]);
        assert s[..|s| - 1][0] == s[0];
      }
    }
  }

  /** `str.replace(target, with)` for a one-character `target`. */
  function Replace(s: string, target: char, with: string): string {
    if s == "" then "" else (if s[0] == target then with else [s[0]]) + Replace(s[1..], target, with)
  }

  /** The three replacements in the order the code makes them. */
  function Escape(s: string): string {
    Replace(Replace(Replace(s, '\\', "\\\\"), '%', "\\%"), '_', "\\_")
  }

  function Lower(lower: char -> char, s: string): (r: string)
    ensures |r| == |s| && forall i :: 0 <= i < |s| ==> r[i] == lower(s[i])
  {
    if s == "" then "" else [lower(s[0])] + Lower(lower, s[1..])
  }

  /** The LIKE pattern for a search term; `lower` is lower-casing per character. */
  function SearchPattern(lower: char -> char, search: string): string {
    "%" + Lower(lower, Escape(Strip(search))) + "%"
  }

  /** Lower-casing neither makes nor loses a character LIKE treats specially. */
  ghost predicate LeavesSpecials(lower: char -> char) {
    forall c :: Special(c) || Special(lower(c)) ==> lower(c) == c
  }

  /** What one pass that escapes every special character would give. */
  function EscapeOnce(s: string): string {
    if s == "" then "" else (if Special(s[0]) then ['\\', s[0]] else [s[0]]) + EscapeOnce(s[1..])
  }

  lemma Associative(a: string, b: string, c: string)
    ensures a + (b + c) == a + b + c
  {
  }

  lemma {:induction false} ReplaceConcat(s: string, t: string, target: char, with: string)
    ensures Replace(s + t, target, with) == Replace(s, target, with) + Replace(t, target, with)
  {
    if s == "" {
      assert s + t == t;
    } else {
      ReplaceConcat(s[1..], t, target, with);
      assert (s + t)[1..] == s[1..] + t && (s + t)[0] == s[0];
      Associative(if s[0] == target then with else [s[0]], Replace(s[1..], target, with), Replace(t, target, with));
    }
  }

  /** Doubling backslashes first is what lets the later replacements add theirs unharmed. */
  lemma {:induction false} ThreePassesAreOne(s: string)
    ensures Escape(s) == EscapeOnce(s)
  {
    if s != "" {
      var head := if s[0] == '\\' then "\\\\" else [s[0]];
      var head2 := Replace(head, '%', "\\%");
      ReplaceConcat(head, Replace(s[1..], '\\', "\\\\"), '%', "\\%");
      ReplaceConcat(head2, Replace(Replace(s[1..], '\\', "\\\\"), '%', "\\%"), '_', "\\_");
      EscapeHead(s[0]);
      ThreePassesAreOne(s[1..]);
    }
  }

  lemma EscapeHead(c: char)
    ensures Replace(Replace(if c == '\\' then "\\\\" else [c], '%', "\\%"), '_', "\\_")
         == if Special(c) then ['\\', c] else [c]
  {
    if c == '\\' {
      ReplacePair('\\', '\\', '%', "\\%");
      ReplacePair('\\', '\\', '_', "\\_");
    } else if c == '%' {
      ReplaceOne(c, '%', "\\%");
      ReplacePair('\\', '%', '_', "\\_");
      assert ['\\', '%'] == "\\%";
    } else {
      ReplaceOne(c, '%', "\\%");
      ReplaceOne(c, '_', "\\_");
      assert ['\\', '_'] == "\\_";
    }
  }

  lemma ReplaceOne(c: char, target: char, with: string)
    ensures Replace([c], target, with) == if c == target then with else [c]
  {
    assert [c][1..] == "";
  }

  lemma ReplacePair(c: char, d: char, target: char, with: string)
    requires c != target && d != target
    ensures Replace([c, d], target, with) == [c, d]
  {
    assert [c, d][1..] == [d];
    ReplaceOne(d, target, with);
    assert Replace([c, d], target, with) == [c] + [d];
  }

  lemma {:induction false} LowerEscaped(lower: char -> char, s: string)
    requires LeavesSpecials(lower)
    ensures Lower(lower, EscapeOnce(s)) == EscapeOnce(Lower(lower, s))
  {
    if s != "" {
      LowerEscaped(lower, s[1..]);
      var head := if Special(s[0]) then ['\\', s[0]] else [s[0]];
      LowerConcat(lower, head, EscapeOnce(s[1..]));
      assert Special('\\') && lower('\\') == '\\';
      assert [s[0]][1..] == "" && ['\\', s[0]][1..] == [s[0]];
    }
  }

  lemma {:induction false} LowerConcat(lower: char -> char, s: string, t: string)
    ensures Lower(lower, s + t) == Lower(lower, s) + Lower(lower, t)
  {
    if s == "" {
      assert s + t == t;
    } else {
      LowerConcat(lower, s[1..], t);
      assert (s + t)[1..] == s[1..] + t && (s + t)[0] == s[0];
      Associative([lower(s[0])], Lower(lower, s[1..]), Lower(lower, t));
    }
  }

  /** An escaped term matches itself, character by character, before whatever follows. */
  lemma {:induction false} EscapedMatchesItself(text: string, term: string, rest: string)
    ensures Like(text, EscapeOnce(term) + rest) <==> term <= text && Like(text[|term|..], rest)
  {
    if term == "" {
      assert EscapeOnce(term) + rest == rest;
    } else {
      var tail := EscapeOnce(term[1..]) + rest;
      var pattern := EscapeOnce(term) + rest;
      if Special(term[0]) {
        assert pattern == ['\\', term[0]] + tail && pattern[2..] == tail;
      } else {
        assert pattern == [term[0]] + tail && pattern[1..] == tail;
      }
      if text != "" {
        EscapedMatchesItself(text[1..], term[1..], rest);
        assert term <= text <==> term[0] == text[0] && term[1..] <= text[1..];
        assert term <= text ==> text[1..][|term| - 1..] == text[|term|..];
      }
    }
  }

  ghost predicate OccursAt(text: string, term: string, i: nat) {
    i + |term| <= |text| && text[i..i + |term|] == term
  }

  /** `term` is a contiguous part of `text`. */
  ghost predicate Contains(text: string, term: string) {
    exists i: nat :: OccursAt(text, term, i)
  }

  lemma {:induction false} ContainsPattern(text: string, term: string)
    ensures Like(text, "%" + EscapeOnce(term) + "%") <==> Contains(text, term)
    decreases |text|
  {
    var pattern := "%" + EscapeOnce(term) + "%";
    assert pattern[1..] == EscapeOnce(term) + "%";
    EscapedMatchesItself(text, term, "%");
    if term <= text {
      PercentMatchesAll(text[|term|..]);
      assert OccursAt(text, term, 0);
    } else {
      assert !OccursAt(text, term, 0);
    }
    if text != "" {
      ContainsPattern(text[1..], term);
      forall i: nat | i < |text| ensures OccursAt(text[1..], term, i) <==> OccursAt(text, term, i + 1) {
        assert i + 1 + |term| <= |text| ==> text[1..][i..i + |term|] == text[i + 1..i + 1 + |term|];
      }
      if exists i: nat :: OccursAt(text[1..], term, i) {
        var i: nat :| OccursAt(text[1..], term, i);
        assert OccursAt(text, term, i + 1);
      }
      if exists i: nat :: OccursAt(text, term, i) {
        var i: nat :| OccursAt(text, term, i);
        assert i > 0 ==> OccursAt(text[1..], term, i - 1);
      }
    }
  }

  /**
   * The search matches exactly the texts that contain the stripped term, both lower-cased: no character a
   * user can type acts as a wildcard.
   */
  lemma SearchFindsSubstrings(lower: char -> char, search: string, text: string)
    requires LeavesSpecials(lower)
    ensures Like(Lower(lower, text), SearchPattern(lower, search))
       <==> Contains(Lower(lower, text), Lower(lower, Strip(search)))
  {
    var term := Strip(search);
    ThreePassesAreOne(term);
    LowerEscaped(lower, term);
    ContainsPattern(Lower(lower, text), Lower(lower, term));
    assert SearchPattern(lower, search) == "%" + EscapeOnce(Lower(lower, term)) + "%";
    assert Like(Lower(lower, text), SearchPattern(lower, search))
        == Like(Lower(lower, text), "%" + EscapeOnce(Lower(lower, term)) + "%");
  }
}
