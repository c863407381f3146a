/** Python's view of text, as far as the handlers use it: whitespace, strip, and searching. */
module Text {
  import opened Prelude

  /** `str.isspace` and the regular expression class `\s` agree on these. */
  predicate IsSpace(c: char) {
    var n := c as int;
    || 9 <= n <= 13 || 28 <= n <= 32 || n == 0x85 || n == 0xA0 || n == 0x1680
    || 0x2000 <= n <= 0x200A || n == 0x2028 || n == 0x2029 || n == 0x202F || n == 0x205F || n == 0x3000
  }

  /** The ASCII characters among them: tab to carriage return, the four separators, and the space. */
  lemma AsciiSpaces(c: char)
    requires c as int < 128
    ensures IsSpace(c) <==> c in {' ', '\t', '\n', '\r', 11 as char, 12 as char,
                                  28 as char, 29 as char, 30 as char, 31 as char}
  {
  }

  predicate Blank(s: string) {
    forall i :: 0 <= i < |s| ==> IsSpace(s[i])
  }

  function DropSpaces(s: string): (r: string)
    ensures |r| <= |s|
  {
    if s == "" || !IsSpace(s[0]) then s else DropSpaces(s[1..])
  }

  function DropTrailing(s: string): (r: string)
    ensures |r| <= |s|
  {
    if s == "" || !IsSpace(s[|s|-1]) then s else DropTrailing(s[..|s|-1])
  }

  lemma BlankAppend(a: string, b: string)
    requires Blank(a) && Blank(b)
    ensures Blank(a + b)
  {
  }

  lemma BlankOne(c: char)
    requires IsSpace(c)
    ensures Blank([c])
  {
  }

  /** Blank text in front, and no space at the beginning of what is left. */
  lemma {:induction false} DropSpacesSplits(s: string) returns (lead: string)
    ensures s == lead + DropSpaces(s) && Blank(lead)
    ensures DropSpaces(s) != "" ==> !IsSpace(DropSpaces(s)[0])
  {
    if s == "" || !IsSpace(s[0]) {
      lead := "";
    } else {
      var rest := DropSpacesSplits(s[1..]);
      BlankOne(s[0]);
      BlankAppend([s[0]], rest);
      lead := [s[0]] + rest;
      assert s == [s[0]] + s[1..] == [s[0]] + (rest + DropSpaces(s)) == lead + DropSpaces(s);
    }
  }

  lemma {:induction false} DropTrailingSplits(s: string) returns (trail: string)
    ensures s == DropTrailing(s) + trail && Blank(trail)
    ensures DropTrailing(s) != "" ==> !IsSpace(DropTrailing(s)[|DropTrailing(s)|-1])
  {
    if s == "" || !IsSpace(s[|s|-1]) {
      trail := "";
    } else {
      var rest := DropTrailingSplits(s[..|s|-1]);
      BlankOne(s[|s|-1]);
      BlankAppend(rest, [s[|s|-1]]);
      trail := rest + [s[|s|-1]];
      assert s == s[..|s|-1] + [s[|s|-1]] == (DropTrailing(s) + rest) + [s[|s|-1]] == DropTrailing(s) + trail;
    }
  }

  function Strip(s: string): string {
    DropTrailing(DropSpaces(s))
  }

  lemma {:induction false} DropSpacesOfBlank(p: string, s: string)
    requires Blank(p) && (s == "" || !IsSpace(s[0]))
    ensures DropSpaces(p + s) == s
  {
    if p == "" {
      assert p + s == s;
    } else {
      assert (p + s)[1..] == p[1..] + s;
      assert IsSpace(p[0]);
      DropSpacesOfBlank(p[1..], s);
    }
  }

  lemma {:induction false} DropTrailingOfBlank(s: string, q: string)
    requires Blank(q) && (s == "" || !IsSpace(s[|s|-1]))
    ensures DropTrailing(s + q) == s
  {
    if q == "" {
      assert s + q == s;
    } else {
      assert (s + q)[..|s|+|q|-1] == s + q[..|q|-1];
      assert IsSpace(q[|q|-1]);
      DropTrailingOfBlank(s, q[..|q|-1]);
    }
  }

  lemma StripFront(p: string, s: string)
    requires s != "" && !IsSpace(s[0])
    ensures DropSpaces(p + s) == DropSpaces(p) + s
  {
    var lead := DropSpacesSplits(p);
    var p' := DropSpaces(p);
    assert p + s == lead + (p' + s);
    assert (p' + s)[0] == if p' == "" then s[0] else p'[0];
    DropSpacesOfBlank(lead, p' + s);
  }

  lemma StripBack(s: string, q: string)
    requires s != "" && !IsSpace(s[|s|-1])
    ensures DropTrailing(s + q) == s + DropTrailing(q)
  {
    var trail := DropTrailingSplits(q);
    var q' := DropTrailing(q);
    assert s + q == (s + q') + trail;
    assert (s + q')[|s|+|q'|-1] == if q' == "" then s[|s|-1] else q'[|q'|-1];
    DropTrailingOfBlank(s + q', trail);
  }

  /** Stripping text around a core that neither begins nor ends with a space leaves the core. */
  lemma StripAround(p: string, core: string, q: string)
    requires core != "" && !IsSpace(core[0]) && !IsSpace(core[|core|-1])
    ensures Strip(p + core + q) == DropSpaces(p) + core + DropTrailing(q)
  {
    assert p + core + q == p + (core + q);
    StripFront(p, core + q);
    assert DropSpaces(p) + (core + q) == (DropSpaces(p) + core) + q;
    StripBack(DropSpaces(p) + core, q);
  }

  predicate OccursAt(s: string, part: string, i: int) {
    0 <= i && i + |part| <= |s| && s[i..i+|part|] == part
  }

  predicate Contains(s: string, part: string) {
    exists i :: 0 <= i <= |s| && OccursAt(s, part, i)
  }

  /** The first occurrence, as `str.find` with -1 as None. */
  function Find(s: string, part: string): (r: Option<nat>)
    ensures r.Some? ==> r.value + |part| <= |s|
  {
    FindFrom(s, part, 0)
  }

  function FindFrom(s: string, part: string, k: nat): (r: Option<nat>)
    requires k <= |s|
    ensures r.Some? ==> k <= r.value && r.value + |part| <= |s|
    decreases |s| - k
  {
    if OccursAt(s, part, k) then Some(k)
    else if k == |s| then None
    else FindFrom(s, part, k + 1)
  }

  lemma {:induction false} FindFromIsFirst(s: string, part: string, k: nat)
    requires k <= |s|
    ensures match FindFrom(s, part, k)
            case None => forall i :: k <= i <= |s| ==> !OccursAt(s, part, i)
            case Some(n) => OccursAt(s, part, n) && forall i :: k <= i < n ==> !OccursAt(s, part, i)
    decreases |s| - k
  {
    if !OccursAt(s, part, k) && k < |s| {
      FindFromIsFirst(s, part, k + 1);
    }
  }

  lemma FindIsFirst(s: string, part: string)
    ensures match Find(s, part)
            case None => forall i :: 0 <= i <= |s| ==> !OccursAt(s, part, i)
            case Some(n) => OccursAt(s, part, n) && forall i :: 0 <= i < n ==> !OccursAt(s, part, i)
  {
    FindFromIsFirst(s, part, 0);
  }

  lemma FoundAt(s: string, part: string, k: nat)
    requires OccursAt(s, part, k) && forall i :: 0 <= i < k ==> !OccursAt(s, part, i)
    ensures Find(s, part) == Some(k)
  {
    FindIsFirst(s, part);
  }

  lemma NotFound(s: string, part: string, i: int)
    requires Find(s, part).None?
    ensures !OccursAt(s, part, i)
  {
    FindIsFirst(s, part);
  }

  /** The last occurrence of a character, as `str.rfind`. */
  function FindLast(s: string, c: char): (r: Option<nat>)
    ensures r.Some? ==> r.value < |s| && s[r.value] == c && forall i :: r.value < i < |s| ==> s[i] != c
    ensures r.None? ==> c !in s
  {
    if s == "" then None
    else if s[|s|-1] == c then Some(|s| - 1)
    else FindLast(s[..|s|-1], c)
  }
}
