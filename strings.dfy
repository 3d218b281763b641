/** The three JavaScript string built-ins the tool relies on: `includes`
    (content sniffing), and `trim` and `toLowerCase` (normalising the
    answer to the overwrite prompt). */
module Strings {

  /** `s.includes(sub)`: `sub` occurs somewhere in `s`. The empty string
      occurs in every string, as in JavaScript. */
  predicate Contains(s: string, sub: string)
    decreases |s|
  {
    sub <= s || (s != [] && Contains(s[1..], sub))
  }

  /** `sub` occurs in `s` starting at offset `i`. */
  ghost predicate OccursAt(s: string, sub: string, i: int) {
    0 <= i && i + |sub| <= |s| && s[i..i + |sub|] == sub
  }

  /** Contains agrees with the offset definition of a substring, in both
      directions. */
  lemma {:induction false} ContainsIff(s: string, sub: string)
    ensures Contains(s, sub) <==> exists i :: OccursAt(s, sub, i)
    decreases |s|
  {
    if sub <= s {
      assert OccursAt(s, sub, 0);
    } else if s == [] {
    } else {
      ContainsIff(s[1..], sub);
      if Contains(s[1..], sub) {
        var i :| OccursAt(s[1..], sub, i);
        OccursInTail(s, sub, i + 1);
      }
      forall i | OccursAt(s, sub, i) ensures Contains(s[1..], sub) {
        assert i != 0;
        OccursInTail(s, sub, i);
      }
    }
  }

  /** An occurrence past the first character is one in the tail. */
  lemma OccursInTail(s: string, sub: string, i: int)
    requires 0 < i && s != []
    ensures OccursAt(s, sub, i) <==> OccursAt(s[1..], sub, i - 1)
  {
    if i + |sub| <= |s| {
      assert s[1..][i - 1..i - 1 + |sub|] == s[i..i + |sub|];
    }
  }

  /** The characters JavaScript's `trim` removes: the WhiteSpace and
      LineTerminator code points of the ECMAScript grammar (tab, vertical
      tab, form feed, space, no-break space, byte-order mark, the Unicode
      space separators, line feed, carriage return, line and paragraph
      separators). */
  predicate IsSpace(c: char) {
    c == '\t' || c == '\n' || c == '\U{000B}' || c == '\U{000C}' || c == '\r'
    || c == ' ' || c == '\U{00A0}' || c == '\U{1680}'
    || ('\U{2000}' <= c <= '\U{200A}')
    || c == '\U{2028}' || c == '\U{2029}' || c == '\U{202F}' || c == '\U{205F}'
    || c == '\U{3000}' || c == '\U{FEFF}'
  }

  ghost predicate AllSpace(s: string) {
    forall i :: 0 <= i < |s| ==> IsSpace(s[i])
  }

  /** The longest all-space prefix of `s` removed. */
  function TrimStart(s: string): (r: string)
    ensures |r| <= |s| && r == s[|s| - |r|..]
    ensures r == [] || !IsSpace(r[0])
    ensures AllSpace(s[..|s| - |r|])
    decreases |s|
  {
    if s != [] && IsSpace(s[0]) then TrimStart(s[1..]) else s
  }

  /** The longest all-space suffix of `s` removed. */
  function TrimEnd(s: string): (r: string)
    ensures r <= s
    ensures r == [] || !IsSpace(r[|r| - 1])
    ensures AllSpace(s[|r|..])
    decreases |s|
  {
    if s != [] && IsSpace(s[|s| - 1]) then TrimEnd(s[..|s| - 1]) else s
  }

  /** `s.trim()`. */
  function Trim(s: string): string {
    TrimEnd(TrimStart(s))
  }

  /** Every string is its trimmed part between an all-space prefix and an
      all-space suffix. */
  lemma TrimSplits(s: string) returns (lead: string, trail: string)
    ensures s == lead + Trim(s) + trail
    ensures AllSpace(lead) && AllSpace(trail)
    ensures Trim(s) == [] || (!IsSpace(Trim(s)[0]) && !IsSpace(Trim(s)[|Trim(s)| - 1]))
  {
    lead, trail := TrimmedParts(s, TrimStart(s), Trim(s));
  }

  /** The facts behind `TrimSplits`, stated on the two intermediate strings. */
  lemma TrimmedParts(s: string, u: string, w: string) returns (lead: string, trail: string)
    requires |u| <= |s| && u == s[|s| - |u|..] && AllSpace(s[..|s| - |u|])
    requires u == [] || !IsSpace(u[0])
    requires w <= u && AllSpace(u[|w|..]) && (w == [] || !IsSpace(w[|w| - 1]))
    ensures s == lead + w + trail
    ensures AllSpace(lead) && AllSpace(trail)
    ensures w == [] || (!IsSpace(w[0]) && !IsSpace(w[|w| - 1]))
  {
    var k := |s| - |u|;
    SplitAround(s, k, w);
    assert s[k + |w|..] == u[|w|..];
    if w != [] {
      assert w[0] == u[0];
    }
    lead, trail := s[..k], s[k + |w|..];
  }

  /** A prefix of `s[k..]` splits `s` in three. */
  lemma SplitAround(s: string, k: nat, w: string)
    requires k <= |s| && w <= s[k..]
    ensures k + |w| <= |s| && s == s[..k] + w + s[k + |w|..]
  {
    assert s[k..][..|w|] == s[k..k + |w|];
    assert s == s[..k] + s[k..k + |w|] + s[k + |w|..];
  }

  /** TrimStart removes exactly an all-space prefix in front of a part that
      does not start with a space. */
  lemma {:induction false} TrimStartPadded(lead: string, rest: string)
    requires AllSpace(lead)
    requires rest == [] || !IsSpace(rest[0])
    ensures TrimStart(lead + rest) == rest
    decreases |lead|
  {
    if lead != [] {
      assert (lead + rest)[1..] == lead[1..] + rest;
      TrimStartPadded(lead[1..], rest);
    } else {
      assert lead + rest == rest;
    }
  }

  /** TrimEnd removes exactly an all-space suffix behind a part that does
      not end with a space. */
  lemma {:induction false} TrimEndPadded(rest: string, trail: string)
    requires AllSpace(trail)
    requires rest == [] || !IsSpace(rest[|rest| - 1])
    ensures TrimEnd(rest + trail) == rest
    decreases |trail|
  {
    if trail != [] {
      var last := |trail| - 1;
      assert (rest + trail)[..|rest + trail| - 1] == rest + trail[..last];
      TrimEndPadded(rest, trail[..last]);
    } else {
      assert rest + trail == rest;
    }
  }

  /** Leading and trailing spaces do not survive Trim, and what lies between
      them is kept as it is. */
  lemma TrimPadded(lead: string, core: string, trail: string)
    requires AllSpace(lead) && AllSpace(trail)
    requires core == [] || (!IsSpace(core[0]) && !IsSpace(core[|core| - 1]))
    ensures Trim(lead + core + trail) == core
  {
    if core == [] {
      assert lead + core + trail == (lead + trail) + [];
      TrimStartPadded(lead + trail, []);
    } else {
      assert lead + core + trail == lead + (core + trail);
      TrimStartPadded(lead, core + trail);
      TrimEndPadded(core, trail);
    }
  }

  /** `toLowerCase` on one character, for the ASCII letters A to Z. */
  function LowerChar(c: char): char {
    if 'A' <= c <= 'Z' then (c as int + 32) as char else c
  }

  /** Lower-casing turns no character into a space or out of one, and
      leaves no upper-case ASCII letter. */
  lemma LowerCharFacts(c: char)
    ensures IsSpace(LowerChar(c)) == IsSpace(c)
    ensures !('A' <= LowerChar(c) <= 'Z')
  {
    if 'A' <= c <= 'Z' {
      assert 'a' <= LowerChar(c) <= 'z';
    }
  }

  /** `s.toLowerCase()` restricted to ASCII letters; other characters are
      kept as they are. */
  function ToLower(s: string): (r: string)
    ensures |r| == |s|
    ensures forall i :: 0 <= i < |s| ==> r[i] == LowerChar(s[i])
    ensures forall i :: 0 <= i < |s| ==> IsSpace(r[i]) == IsSpace(s[i]) && !('A' <= r[i] <= 'Z')
    decreases |s|
  {
    if s == [] then []
    else
      LowerCharFacts(s[0]);
      [LowerChar(s[0])] + ToLower(s[1..])
  }
}
