/** Finding the JSON object in a model's answer, through prose and Markdown fences. */
module ExtractJson {
  import opened Prelude
  import opened Text
  import J = Json

  const FENCE := "```"

  /** What the fence pattern captures: the text after the first fence, an optional language tag and
      whitespace, up to the next fence. */
  function FenceBody(s: string): Option<string> {
    match Find(s, FENCE)
    case None => None
    case Some(i) =>
      UpToFence(DropSpaces(Untagged(s[i+3..])))
  }

  function Untagged(after: string): string {
    if "json" <= after then after[4..] else after
  }

  function UpToFence(body: string): Option<string> {
    match Find(body, FENCE)
    case None => None
    case Some(j) => Some(body[..j])
  }

  /** The parsed object's members, or None for a ValueError. */
  function Extract(text: string): Option<seq<J.Member>> {
    var stripped := Strip(text);
    var fenced := FenceBody(stripped);
    Parse(if fenced.Some? then Strip(fenced.value) else stripped)
  }

  /** The candidate as a whole or, if it is no JSON, what its outermost braces enclose. */
  function Parse(candidate: string): Option<seq<J.Member>> {
    match J.Loads(candidate)
    case Some(v) => Members(v)
    case None =>
      var first, last := Find(candidate, "{"), FindLast(candidate, '}');
      if first.None? || last.None? || last.value <= first.value then None
      else
        match J.Loads(candidate[first.value..last.value+1])
        case Some(v) => Members(v)
        case None => None
  }

  function Members(v: J.Json): Option<seq<J.Member>> {
    if v.Obj? then Some(v.fields) else None
  }

  /** From the first opening brace to the last closing one, when they are in that order. */
  predicate OutermostBraces(s: string, i: nat, j: nat) {
    && i < j < |s| && s[i] == '{' && s[j] == '}'
    && (forall k :: 0 <= k < i ==> s[k] != '{') && (forall k :: j < k < |s| ==> s[k] != '}')
  }

  lemma BracesAreFound(s: string)
    ensures var (first, last) := (Find(s, "{"), FindLast(s, '}'));
            if first.Some? && last.Some? && first.value < last.value
            then OutermostBraces(s, first.value, last.value)
                 && forall a, b :: OutermostBraces(s, a, b) ==> a == first.value && b == last.value
            else forall a, b :: !OutermostBraces(s, a, b)
  {
    FindIsFirst(s, "{");
    forall k | 0 <= k < |s| ensures OccursAt(s, "{", k) <==> s[k] == '{' {
      assert s[k..k+1] == [s[k]];
    }
  }

  /** An answer without a fence that is a JSON document counts only if that is an object. */
  lemma UnfencedDocument(text: string)
    requires Find(Strip(text), "```").None? && J.Loads(Strip(text)).Some?
    ensures match J.Loads(Strip(text)).value
            case Obj(fields) => Extract(text) == Some(fields)
            case _ => Extract(text) == None
  {
  }

  /** Any other answer without a fence yields an object exactly when its outermost braces enclose one:
      one whose braces are missing, or in the wrong order, is refused. */
  lemma UnfencedProse(text: string, fields: seq<J.Member>)
    requires Find(Strip(text), "```").None? && J.Loads(Strip(text)).None?
    ensures var s := Strip(text);
            Extract(text) == Some(fields) <==>
            exists i: nat, j: nat :: OutermostBraces(s, i, j) && J.Loads(s[i..j+1]) == Some(J.Obj(fields))
    ensures (forall i: nat, j: nat :: !OutermostBraces(Strip(text), i, j)) ==> Extract(text) == None
  {
    BracesAreFound(Strip(text));
  }

  /* ---------- The shape of a serialized object ---------- */

  /** Text between braces that reads as an object, whatever follows it. */
  ghost predicate IsObjectText(d: string, fields: seq<J.Member>) {
    && |d| >= 2 && d[0] == '{' && d[|d|-1] == '}'
    && forall q :: J.ReadValue(d + q) == Some((J.Obj(fields), q))
  }

  lemma LoadsObjectText(d: string, fields: seq<J.Member>, q: string)
    requires IsObjectText(d, fields)
    ensures J.Loads(d + q) == if J.SkipWs(q) == "" then Some(J.Obj(fields)) else None
    ensures J.Loads(d) == Some(J.Obj(fields))
  {
    assert d + "" == d;
    assert J.ReadValue(d + "") == Some((J.Obj(fields), ""));
    assert J.SkipWs(d + q) == d + q;
  }

  lemma DumpsIsBraced(fields: seq<J.Member>, indent: Option<nat>)
    ensures var d := J.Dumps(J.Obj(fields), indent); |d| >= 2 && d[0] == '{' && d[|d|-1] == '}'
  {
    if fields != [] {
      var end := J.Gap(indent, 0) + (['}'] + "");
      J.FieldsThen(fields, indent, 1, "", end);
      assert "" + end == end && end[|end|-1] == '}';
      BracedText(J.Gap(indent, 1), J.DumpFieldsTo(fields, indent, 1, ""), end);
    }
  }

  lemma BracedText(gap: string, inside: string, end: string)
    requires end != "" && end[|end|-1] == '}'
    ensures var d := ['{'] + (gap + (inside + end)); |d| >= 2 && d[0] == '{' && d[|d|-1] == '}'
  {
  }

  lemma DumpsIsObjectText(fields: seq<J.Member>, indent: Option<nat>)
    requires J.WellFormed(J.Obj(fields))
    ensures IsObjectText(J.Dumps(J.Obj(fields), indent), fields)
  {
    DumpsIsBraced(fields, indent);
    forall q ensures J.ReadValue(J.Dumps(J.Obj(fields), indent) + q) == Some((J.Obj(fields), q)) {
      DumpsReadsBack(fields, indent, q);
    }
  }

  lemma DumpsReadsBack(fields: seq<J.Member>, indent: Option<nat>, q: string)
    requires J.WellFormed(J.Obj(fields))
    ensures J.ReadValue(J.Dumps(J.Obj(fields), indent) + q) == Some((J.Obj(fields), q))
  {
    J.DumpThen(J.Obj(fields), indent, 0, "", q);
    assert "" + q == q;
    J.ReadDumpedObject(fields, indent, 0, q);
  }

  /* ---------- Prose around the object ---------- */

  predicate NoBraces(s: string) {
    forall i :: 0 <= i < |s| ==> s[i] != '{' && s[i] != '}'
  }

  lemma BracesFound(p: string, d: string, q: string)
    requires NoBraces(p) && NoBraces(q) && |d| >= 2 && d[0] == '{' && d[|d|-1] == '}'
    ensures var s := p + d + q;
            && Find(s, "{") == Some(|p|) && FindLast(s, '}') == Some(|p| + |d| - 1)
            && s[|p|..|p|+|d|] == d
  {
    var s := p + d + q;
    forall i | 0 <= i < |p| ensures !OccursAt(s, "{", i) {
      assert s[i] == p[i];
    }
    assert s[|p|] == d[0] && OccursAt(s, "{", |p|);
    FoundAt(s, "{", |p|);
    assert s[|p|+|d|-1] == d[|d|-1];
    forall i | |p| + |d| <= i < |s| ensures s[i] != '}' {
      assert s[i] == q[i-|p|-|d|];
    }
  }

  lemma {:induction false} SkipWsKeeps(s: string, c: char)
    requires c in s && !J.IsWs(c)
    ensures J.SkipWs(s) != ""
  {
    if J.IsWs(s[0]) {
      assert c in s[1..];
      SkipWsKeeps(s[1..], c);
    }
  }

  /** Text that does not start an array or a string, and has the object somewhere after its start,
      is not JSON as a whole. */
  lemma ProseIsNotJson(p: string, d: string, q: string)
    requires p != "" && !IsSpace(p[0]) && p[0] != '[' && p[0] != '"' && NoBraces(p)
    requires d != "" && d[0] == '{'
    ensures J.Loads(p + d + q) == None
  {
    var s := p + d + q;
    assert s[0] == p[0];
    assert J.SkipWs(s) == s && J.ReadValue(s) == J.ReadWord(s);
    var n := J.WordLength(s);
    assert s[|p|] == '{';
    assert n <= |p|;
    var rest := s[n..];
    assert rest[|p|-n] == '{';
    SkipWsKeeps(rest, '{');
  }

  lemma ObjectsStartWithBrace(s: string)
    requires J.ReadValue(s).Some? && J.ReadValue(s).value.0.Obj?
    ensures s != "" && s[0] == '{'
  {
  }

  /** A window onto `s` is a window onto any text that has `s` inside. */
  lemma FenceOfPart(lead: string, s: string, trail: string, i: nat)
    requires OccursAt(s, FENCE, i)
    ensures OccursAt(lead + s + trail, FENCE, |lead| + i)
  {
    assert (lead + s + trail)[|lead|+i..|lead|+i+3] == s[i..i+3];
  }

  /** Stripped text with no fence in the original has no fence either. */
  lemma StillUnfenced(text: string, lead: string, s: string, trail: string)
    requires text == lead + s + trail && Find(text, FENCE).None?
    ensures FenceBody(s).None?
  {
    if Find(s, FENCE).Some? {
      var i := Find(s, FENCE).value;
      FindIsFirst(s, FENCE);
      FenceOfPart(lead, s, trail, i);
      NotFound(text, FENCE, |lead| + i);
    }
  }

  /** The whole stripped answer is itself JSON, but not an object: an array or a string around the
      object, say. */
  predicate IsOtherJson(text: string) {
    var whole := J.Loads(Strip(text));
    whole.Some? && !whole.value.Obj?
  }

  lemma WholeObjectIsIt(p: string, d: string, q: string, fields: seq<J.Member>)
    requires IsObjectText(d, fields) && NoBraces(p) && (p == "" || !IsSpace(p[0]))
    requires J.Loads(p + d + q).Some? && J.Loads(p + d + q).value.Obj?
    ensures J.Loads(p + d + q) == Some(J.Obj(fields))
  {
    var s := p + d + q;
    assert s[0] == if p == "" then '{' else p[0];
    assert J.SkipWs(s) == s;
    ObjectsStartWithBrace(s);
    assert p == "" && s == d + q;
    LoadsObjectText(d, fields, q);
  }

  lemma ParseAround(p: string, d: string, q: string, fields: seq<J.Member>)
    requires IsObjectText(d, fields) && NoBraces(p) && NoBraces(q) && (p == "" || !IsSpace(p[0]))
    ensures var whole := J.Loads(p + d + q);
            Parse(p + d + q) == if whole.Some? && !whole.value.Obj? then None else Some(fields)
  {
    BracesFound(p, d, q);
    LoadsObjectText(d, fields, "");
    if J.Loads(p + d + q).Some? && J.Loads(p + d + q).value.Obj? {
      WholeObjectIsIt(p, d, q, fields);
    }
  }

  /** The first character that is not whitespace. */
  function FirstInk(s: string): Option<char> {
    var t := DropSpaces(s);
    if t == "" then None else Some(t[0])
  }

  lemma ExtractIsParse(text: string, s: string)
    requires Strip(text) == s && FenceBody(s).None?
    ensures Extract(text) == Parse(s)
  {
  }

  lemma ExtractIsFencedParse(text: string, s: string, body: string, candidate: string)
    requires Strip(text) == s && FenceBody(s) == Some(body) && Strip(body) == candidate
    ensures Extract(text) == Parse(candidate)
  {
  }

  lemma NoBracesParts(a: string, b: string)
    requires NoBraces(a + b)
    ensures NoBraces(a) && NoBraces(b)
  {
    forall i | 0 <= i < |a| ensures a[i] == (a + b)[i] {
    }
    forall i | 0 <= i < |b| ensures b[i] == (a + b)[|a|+i] {
    }
  }

  /** Stripping prose keeps it free of braces and fences. */
  lemma StripProse(p: string, d: string, q: string)
    requires |d| >= 2 && d[0] == '{' && d[|d|-1] == '}'
    requires NoBraces(p) && NoBraces(q) && Find(p + d + q, FENCE).None?
    ensures Strip(p + d + q) == DropSpaces(p) + d + DropTrailing(q)
    ensures FenceBody(DropSpaces(p) + d + DropTrailing(q)).None?
    ensures NoBraces(DropSpaces(p)) && NoBraces(DropTrailing(q))
    ensures DropSpaces(p) == "" || !IsSpace(DropSpaces(p)[0])
  {
    StripAround(p, d, q);
    var lead := DropSpacesSplits(p);
    var trail := DropTrailingSplits(q);
    NoBracesParts(lead, DropSpaces(p));
    NoBracesParts(DropTrailing(q), trail);
    Regrouped(lead, DropSpaces(p), d, DropTrailing(q), trail);
    StillUnfenced(p + d + q, lead, DropSpaces(p) + d + DropTrailing(q), trail);
  }

  lemma Regrouped(a: string, b: string, c: string, d: string, e: string)
    ensures (a + b) + c + (d + e) == a + (b + c + d) + e
  {
  }

  /** Brace-free, fence-free prose around a serialized object is undone exactly when the answer as a
      whole is not some other JSON value. */
  lemma ExtractUndoesProseIff(p: string, fields: seq<J.Member>, indent: Option<nat>, q: string)
    requires J.WellFormed(J.Obj(fields)) && NoBraces(p) && NoBraces(q)
    requires Find(p + J.Dumps(J.Obj(fields), indent) + q, FENCE).None?
    ensures var text := p + J.Dumps(J.Obj(fields), indent) + q;
            Extract(text) == Some(fields) <==> !IsOtherJson(text)
  {
    var d := J.Dumps(J.Obj(fields), indent);
    DumpsIsObjectText(fields, indent);
    StripProse(p, d, q);
    var p', q' := DropSpaces(p), DropTrailing(q);
    ExtractIsParse(p + d + q, p' + d + q');
    ParseAround(p', d, q', fields);
  }

  /** In particular it is undone whenever the prose in front opens with anything but a bracket or a
      quotation mark, or is blank. */
  lemma ExtractUndoesPlainProse(p: string, fields: seq<J.Member>, indent: Option<nat>, q: string)
    requires J.WellFormed(J.Obj(fields)) && NoBraces(p) && NoBraces(q)
    requires Find(p + J.Dumps(J.Obj(fields), indent) + q, FENCE).None?
    requires FirstInk(p) != Some('[') && FirstInk(p) != Some('"')
    ensures Extract(p + J.Dumps(J.Obj(fields), indent) + q) == Some(fields)
  {
    var d := J.Dumps(J.Obj(fields), indent);
    DumpsIsObjectText(fields, indent);
    StripProse(p, d, q);
    var p', q' := DropSpaces(p), DropTrailing(q);
    ExtractIsParse(p + d + q, p' + d + q');
    ParseAround(p', d, q', fields);
    PlainIsNotOther(p', d, q', fields);
  }

  lemma PlainIsNotOther(p: string, d: string, q: string, fields: seq<J.Member>)
    requires IsObjectText(d, fields) && NoBraces(p)
    requires p == "" || (!IsSpace(p[0]) && p[0] != '[' && p[0] != '"')
    ensures J.Loads(p + d + q).Some? ==> J.Loads(p + d + q).value.Obj?
  {
    if p == "" {
      assert p + d + q == d + q;
      LoadsObjectText(d, fields, q);
    } else {
      ProseIsNotJson(p, d, q);
    }
  }

  /** An array of one object is brace-free prose around it, and is always refused. */
  lemma ArrayAroundObjectIsRefused(fields: seq<J.Member>, indent: Option<nat>)
    requires J.WellFormed(J.Obj(fields))
    requires Find("[" + J.Dumps(J.Obj(fields), indent) + "]", FENCE).None?
    ensures Extract("[" + J.Dumps(J.Obj(fields), indent) + "]") == None
  {
    var d := J.Dumps(J.Obj(fields), indent);
    DumpsIsObjectText(fields, indent);
    StripProse("[", d, "]");
    LoadsArrayOf(d, fields);
    ExtractIsParse("[" + d + "]", "[" + d + "]");
  }

  lemma LoadsArrayOf(d: string, fields: seq<J.Member>)
    requires IsObjectText(d, fields)
    ensures J.Loads("[" + d + "]") == Some(J.Arr([J.Obj(fields)]))
  {
    var s := "[" + d + "]";
    assert s[1..] == d + "]";
    assert J.SkipWs(d + "]") == d + "]";
    assert J.ReadValue(d + "]") == Some((J.Obj(fields), "]"));
    assert "]"[1..] == "";
    assert J.ReadItems(d + "]") == Some(([J.Obj(fields)], ""));
  }

  /* ---------- A code fence around the object ---------- */

  /** The first fence is the one that opens the block. */
  lemma OpeningFence(p: string, rest: string)
    requires Find(p + "``", FENCE).None?
    ensures Find(p + (FENCE + rest), FENCE) == Some(|p|) && (p + (FENCE + rest))[|p|+3..] == rest
  {
    var s := p + (FENCE + rest);
    assert |FENCE| == 3 && s[|p|..|p|+3] == FENCE;
    assert s[..|p|+2] == p + "``";
    forall i | 0 <= i < |p| ensures !OccursAt(s, FENCE, i) {
      assert (p + "``")[i..i+3] == s[i..i+3];
      NotFound(p + "``", FENCE, i);
    }
    FoundAt(s, FENCE, |p|);
  }

  /** The next fence is the one that closes it. */
  lemma ClosingFence(d: string, w: string, q: string)
    requires d != "" && d[|d|-1] != '`' && Find(d, FENCE).None? && Blank(w)
    ensures Find(d + w + (FENCE + q), FENCE) == Some(|d| + |w|) && (d + w + (FENCE + q))[..|d|+|w|] == d + w
  {
    var s := d + w + (FENCE + q);
    assert |FENCE| == 3 && s[|d|+|w|..|d|+|w|+3] == FENCE;
    forall i | 0 <= i < |d| + |w| ensures !OccursAt(s, FENCE, i) {
      if i + 3 <= |d| {
        assert s[i..i+3] == d[i..i+3];
        NotFound(d, FENCE, i);
      } else {
        var k := if i < |d| then |d| - 1 - i else 0;
        assert s[i+k] == if i < |d| then d[|d|-1] else w[i-|d|];
        if i + 3 <= |s| {
          assert s[i..i+3][k] == s[i+k] != FENCE[k];
        }
      }
    }
    FoundAt(s, FENCE, |d| + |w|);
  }

  lemma StrippedUnfenced(p: string)
    requires Find(p + "``", FENCE).None?
    ensures Find(DropSpaces(p) + "``", FENCE).None?
  {
    var lead := DropSpacesSplits(p);
    var s := DropSpaces(p) + "``";
    FindIsFirst(s, FENCE);
    if Find(s, FENCE).Some? {
      FenceOfPart(lead, s, "", Find(s, FENCE).value);
      assert lead + s + "" == p + "``";
      NotFound(p + "``", FENCE, |lead| + Find(s, FENCE).value);
    }
  }

  /** A serialized object in one code fence, with or without the language tag, is found again whatever
      stands before (without a fence) and after the block. */
  lemma ExtractUndoesFence(p: string, tag: string, w: string, fields: seq<J.Member>, indent: Option<nat>,
                           w': string, q: string)
    requires J.WellFormed(J.Obj(fields)) && (tag == "" || tag == "json") && Blank(w) && Blank(w')
    requires Find(p + "``", FENCE).None? && Find(J.Dumps(J.Obj(fields), indent), FENCE).None?
    ensures Extract(p + (FENCE + (tag + (w + (J.Dumps(J.Obj(fields), indent) + w' + FENCE)))) + q) == Some(fields)
  {
    DumpsIsObjectText(fields, indent);
    ExtractFenced(p, tag, w, J.Dumps(J.Obj(fields), indent), w', q, fields);
  }

  lemma ExtractFenced(p: string, tag: string, w: string, d: string, w': string, q: string, fields: seq<J.Member>)
    requires IsObjectText(d, fields) && (tag == "" || tag == "json") && Blank(w) && Blank(w')
    requires Find(p + "``", FENCE).None? && Find(d, FENCE).None?
    ensures Extract(p + (FENCE + (tag + (w + (d + w' + FENCE)))) + q) == Some(fields)
  {
    var core := FENCE + (tag + (w + (d + w' + FENCE)));
    var p', q' := DropSpaces(p), DropTrailing(q);
    LastTick(tag + (w + (d + w')));
    assert core == FENCE + (tag + (w + (d + w')) + FENCE);
    StripAround(p, core, q);
    StrippedUnfenced(p);
    RegroupCore(p', tag, w, d, w', q');
    FenceBodyOf(p', tag, w, d, w', q');
    StripTrailing(d, w');
    ExtractIsFencedParse(p + core + q, p' + core + q', d + w', d);
    LoadsObjectText(d, fields, "");
  }

  lemma LastTick(inner: string)
    ensures var core := FENCE + (inner + FENCE); core[0] == '`' && core[|core|-1] == '`'
  {
  }

  lemma RegroupCore(p: string, tag: string, w: string, d: string, w': string, q: string)
    ensures p + (FENCE + (tag + (w + (d + w' + FENCE)))) + q == p + (FENCE + (tag + (w + (d + w' + (FENCE + q)))))
  {
    var inner := tag + (w + (d + w' + FENCE));
    assert tag + (w + (d + w' + (FENCE + q))) == inner + q;
    assert FENCE + (inner + q) == FENCE + inner + q;
  }

  lemma StripTrailing(d: string, w: string)
    requires d != "" && !IsSpace(d[0]) && !IsSpace(d[|d|-1]) && Blank(w)
    ensures Strip(d + w) == d
  {
    assert (d + w)[0] == d[0];
    assert DropSpaces(d + w) == d + w;
    DropTrailingOfBlank(d, w);
  }

  lemma FenceBodyOf(p: string, tag: string, w: string, d: string, w': string, q: string)
    requires d != "" && d[0] == '{' && d[|d|-1] == '}'
    requires (tag == "" || tag == "json") && Blank(w) && Blank(w')
    requires Find(p + "``", FENCE).None? && Find(d, FENCE).None?
    ensures FenceBody(p + (FENCE + (tag + (w + (d + w' + (FENCE + q)))))) == Some(d + w')
  {
    var rest := d + w' + (FENCE + q);
    assert rest == d + (w' + (FENCE + q));
    StartsLike(d, w' + (FENCE + q), rest);
    AfterOpening(p, tag, w, rest);
    ClosingFence(d, w', q);
  }

  lemma AfterOpening(p: string, tag: string, w: string, rest: string)
    requires (tag == "" || tag == "json") && Blank(w) && rest != "" && rest[0] == '{'
    requires Find(p + "``", FENCE).None?
    ensures FenceBody(p + (FENCE + (tag + (w + rest)))) == UpToFence(rest)
  {
    OpeningFence(p, tag + (w + rest));
    Untag(tag, w, rest);
    DropSpacesOfBlank(w, rest);
  }

  lemma StartsLike(d: string, more: string, s: string)
    requires d != "" && s == d + more
    ensures s != "" && s[0] == d[0]
  {
  }

  lemma Untag(tag: string, w: string, rest: string)
    requires (tag == "" || tag == "json") && Blank(w) && rest != "" && rest[0] == '{'
    ensures Untagged(tag + (w + rest)) == w + rest
  {
    var after := tag + (w + rest);
    if tag == "" {
      assert after == w + rest;
      assert after[0] == (if w == "" then '{' else w[0]);
      assert after[0] != "json"[0];
    }
  }
}
