/** JSON as Python's `json` module writes and reads it: `dumps` with its default ASCII escapes, with
    or without indentation, and `loads`. Section numbers refer to RFC 8259. */
module Json {
  import opened Prelude

  /** Objects are lists of pairs; a number is kept as its text. */
  datatype Json =
    | Null
    | Bool(b: bool)
    | Num(lexeme: string)
    | Str(s: string)
    | Arr(items: seq<Json>)
    | Obj(fields: seq<Member>)

  datatype Member = Member(key: string, value: Json)

  /* ---------- Characters ---------- */

  predicate IsDigit(c: char) { '0' <= c <= '9' }

  /** What `null`, `true`, `NaN`, `-1.5e+3` and their like are made of. */
  predicate IsWordChar(c: char) {
    IsDigit(c) || 'a' <= c <= 'z' || 'A' <= c <= 'Z' || c == '+' || c == '-' || c == '.'
  }

  /** Insignificant whitespace (section 2). */
  predicate IsWs(c: char) {
    c == ' ' || c == '\t' || c == '\n' || c == '\r'
  }

  function HexDigit(n: int): char
    requires 0 <= n < 16
  {
    if n < 10 then '0' + n as char else 'a' + (n - 10) as char
  }

  function HexValue(c: char): (r: Option<int>)
    ensures r.Some? ==> 0 <= r.value < 16
  {
    if IsDigit(c) then Some(c as int - '0' as int)
    else if 'a' <= c <= 'f' then Some(c as int - 'a' as int + 10)
    else if 'A' <= c <= 'F' then Some(c as int - 'A' as int + 10)
    else None
  }

  function Hex4(n: int): string
    requires 0 <= n < 0x10000
  {
    [HexDigit(n / 4096), HexDigit(n % 4096 / 256), HexDigit(n % 256 / 16), HexDigit(n % 16)]
  }

  function Unhex4(s: string): (r: Option<int>)
    ensures r.Some? ==> |s| >= 4 && 0 <= r.value < 0x10000
  {
    if |s| < 4 then None
    else
      var a, b, c, d := HexValue(s[0]), HexValue(s[1]), HexValue(s[2]), HexValue(s[3]);
      if a.None? || b.None? || c.None? || d.None? then None
      else Some(a.value * 4096 + b.value * 256 + c.value * 16 + d.value)
  }

  lemma HexRoundTrip(n: int)
    requires 0 <= n < 16
    ensures HexValue(HexDigit(n)) == Some(n) && HexDigit(n) != '<' && HexDigit(n) != '>'
  {
  }

  lemma Hex4RoundTrip(n: int, rest: string)
    requires 0 <= n < 0x10000
    ensures Unhex4(Hex4(n) + rest) == Some(n) && (Hex4(n) + rest)[4..] == rest
    ensures forall i :: 0 <= i < 4 ==> Hex4(n)[i] != '<' && Hex4(n)[i] != '>'
  {
    var a, b, c, d := n / 4096, n % 4096 / 256, n % 256 / 16, n % 16;
    HexRoundTrip(a);
    HexRoundTrip(b);
    HexRoundTrip(c);
    HexRoundTrip(d);
    HexDigitsOf(n);
    FirstFour(Hex4(n), rest);
  }

  lemma HexDigitsOf(n: int)
    requires 0 <= n < 0x10000
    ensures n == n / 4096 * 4096 + n % 4096 / 256 * 256 + n % 256 / 16 * 16 + n % 16
  {
    assert n == n / 4096 * 4096 + n % 4096;
    SplitBy(n % 4096, 256);
    assert n % 4096 % 256 == n % 256;
    SplitBy(n % 256, 16);
    assert n % 256 % 16 == n % 16;
  }

  lemma SplitBy(m: int, unit: int)
    requires unit > 0
    ensures m == m / unit * unit + m % unit
  {
  }

  lemma FirstFour(h: string, rest: string)
    requires |h| == 4
    ensures var s := h + rest;
            s[0] == h[0] && s[1] == h[1] && s[2] == h[2] && s[3] == h[3] && s[4..] == rest
  {
  }

  /* ---------- Writing strings (section 7) ---------- */

  predicate IsPlain(c: char) {
    ' ' <= c <= '~' && c != '"' && c != '\\'
  }

  function EscapeChar(c: char): (r: string)
    ensures r != ""
  {
    if IsPlain(c) then [c]
    else if c == '"' then ['\\', '"']
    else if c == '\\' then ['\\', '\\']
    else if c == '\n' then ['\\', 'n']
    else if c == '\r' then ['\\', 'r']
    else if c == '\t' then ['\\', 't']
    else if c as int == 12 then ['\\', 'f']
    else if c as int == 8 then ['\\', 'b']
    else if c as int < 0x10000 then ['\\', 'u'] + Hex4(c as int)
    else
      var n := c as int - 0x10000;
      ['\\', 'u'] + Hex4(0xD800 + n / 0x400) + ['\\', 'u'] + Hex4(0xDC00 + n % 0x400)
  }

  /** The inside of a string literal and its closing quote, followed by `rest`. */
  function EscapeTo(s: string, rest: string): string {
    if s == "" then ['"'] + rest else EscapeChar(s[0]) + EscapeTo(s[1..], rest)
  }

  function QuoteTo(s: string, rest: string): string {
    ['"'] + EscapeTo(s, rest)
  }

  /* ---------- Writing values ---------- */

  function Spaces(n: nat): string
  {
    if n == 0 then "" else [' '] + Spaces(n - 1)
  }

  /** What `indent` puts before an element at this level. */
  function Gap(indent: Option<nat>, level: nat): string {
    if indent.None? then "" else ['\n'] + Spaces(indent.value * level)
  }

  /** What follows a comma. */
  function AfterComma(indent: Option<nat>, level: nat): string {
    if indent.None? then [' '] else Gap(indent, level)
  }

  /** The text of `v`, followed by `rest`. */
  function DumpTo(v: Json, indent: Option<nat>, level: nat, rest: string): string
    decreases v, 1
  {
    match v
    case Null => "null" + rest
    case Bool(b) => (if b then "true" else "false") + rest
    case Num(lexeme) => lexeme + rest
    case Str(s) => QuoteTo(s, rest)
    case Arr(items) =>
      if items == [] then "[]" + rest
      else ['['] + (Gap(indent, level + 1) + DumpItemsTo(items, indent, level + 1, Gap(indent, level) + ([']'] + rest)))
    case Obj(fields) =>
      if fields == [] then "{}" + rest
      else ['{'] + (Gap(indent, level + 1) +
                    DumpFieldsTo(fields, indent, level + 1, Gap(indent, level) + (['}'] + rest)))
  }

  function DumpItemsTo(items: seq<Json>, indent: Option<nat>, level: nat, rest: string): string
    requires items != []
    decreases items, 0
  {
    DumpTo(items[0], indent, level,
           if |items| == 1 then rest
           else [','] + (AfterComma(indent, level) + DumpItemsTo(items[1..], indent, level, rest)))
  }

  function DumpFieldsTo(fields: seq<Member>, indent: Option<nat>, level: nat, rest: string): string
    requires fields != []
    decreases fields, 0
  {
    QuoteTo(fields[0].key,
            ": " + DumpTo(fields[0].value, indent, level,
                          if |fields| == 1 then rest
                          else [','] + (AfterComma(indent, level) + DumpFieldsTo(fields[1..], indent, level, rest))))
  }

  /** `json.dumps(v, indent=indent)` */
  function Dumps(v: Json, indent: Option<nat>): string {
    DumpTo(v, indent, 0, "")
  }

  /* ---------- Reading ---------- */

  function SkipWs(s: string): (r: string)
    ensures |r| <= |s|
    ensures r != "" ==> !IsWs(r[0])
  {
    if s == "" || !IsWs(s[0]) then s else SkipWs(s[1..])
  }

  /** The string literal whose inside starts here, and what follows it. A lone surrogate
      escape reads as U+FFFD in place of the surrogate that Python keeps: this model's characters have
      none. */
  function ReadString(s: string): (r: Option<(string, string)>)
    ensures r.Some? ==> |r.value.1| < |s|
  {
    if s == "" || s[0] < ' ' then None
    else if s[0] == '"' then Some(("", s[1..]))
    else if s[0] != '\\' then Push(s[0], ReadString(s[1..]))
    else if |s| < 2 then None
    else if s[1] == '"' || s[1] == '\\' || s[1] == '/' then Push(s[1], ReadString(s[2..]))
    else if s[1] == 'n' then Push('\n', ReadString(s[2..]))
    else if s[1] == 'r' then Push('\r', ReadString(s[2..]))
    else if s[1] == 't' then Push('\t', ReadString(s[2..]))
    else if s[1] == 'f' then Push(12 as char, ReadString(s[2..]))
    else if s[1] == 'b' then Push(8 as char, ReadString(s[2..]))
    else if s[1] != 'u' then None
    else
      match Unhex4(s[2..])
      case None => None
      case Some(n) =>
        if !(0xD800 <= n < 0xE000) then Push(n as char, ReadString(s[6..]))
        else if n < 0xDC00 && |s| >= 12 && s[6] == '\\' && s[7] == 'u' && Unhex4(s[8..]).Some?
                && 0xDC00 <= Unhex4(s[8..]).value < 0xE000 then
          Push((0x10000 + (n - 0xD800) * 0x400 + (Unhex4(s[8..]).value - 0xDC00)) as char, ReadString(s[12..]))
        else Push(0xFFFD as char, ReadString(s[6..]))
  }

  function Push(c: char, r: Option<(string, string)>): Option<(string, string)> {
    if r.None? then None else Some(([c] + r.value.0, r.value.1))
  }

  function WordLength(s: string): (n: nat)
    ensures n <= |s| && (n < |s| ==> !IsWordChar(s[n]))
    ensures forall i :: 0 <= i < n ==> IsWordChar(s[i])
  {
    if s == "" || !IsWordChar(s[0]) then 0 else 1 + WordLength(s[1..])
  }

  /** Digits at the front of `s`. */
  function DigitCount(s: string): (n: nat)
    ensures n <= |s|
  {
    if s == "" || !IsDigit(s[0]) then 0 else 1 + DigitCount(s[1..])
  }

  /** An optional exponent and nothing else (section 6). */
  predicate IsExponent(s: string) {
    || s == ""
    || (&& (s[0] == 'e' || s[0] == 'E')
        && var t := if |s| > 1 && (s[1] == '+' || s[1] == '-') then s[2..] else s[1..];
           t != "" && DigitCount(t) == |t|)
  }

  /** A number (section 6), or one of the three constants that Python adds. */
  predicate IsNumber(w: string) {
    || w == "NaN" || w == "Infinity" || w == "-Infinity"
    || var t := if w != "" && w[0] == '-' then w[1..] else w;
       var n := DigitCount(t);
       && n >= 1 && (t[0] == '0' ==> n == 1)
       && (|| IsExponent(t[n..])
           || (&& t[n..] != "" && t[n] == '.'
               && var m := DigitCount(t[n+1..]);
                  m >= 1 && IsExponent(t[n+1+m..])))
  }

  function ReadWord(s: string): (r: Option<(Json, string)>)
    ensures r.Some? ==> |r.value.1| < |s|
  {
    var n := WordLength(s);
    var w := s[..n];
    if w == "null" then Some((Null, s[n..]))
    else if w == "true" then Some((Bool(true), s[n..]))
    else if w == "false" then Some((Bool(false), s[n..]))
    else if n > 0 && IsNumber(w) then Some((Num(w), s[n..]))
    else None
  }

  function ReadValue(s: string): (r: Option<(Json, string)>)
    ensures r.Some? ==> |r.value.1| < |s|
    decreases |s|, 0
  {
    if s == "" then None
    else if s[0] == '"' then
      match ReadString(s[1..])
      case None => None
      case Some((text, rest)) => Some((Str(text), rest))
    else if s[0] == '[' then
      var t := SkipWs(s[1..]);
      if t != "" && t[0] == ']' then Some((Arr([]), t[1..]))
      else
        match ReadItems(t)
        case None => None
        case Some((items, rest)) => Some((Arr(items), rest))
    else if s[0] == '{' then
      var t := SkipWs(s[1..]);
      if t != "" && t[0] == '}' then Some((Obj([]), t[1..]))
      else
        match ReadFields(t)
        case None => None
        case Some((fields, rest)) => Some((Obj(fields), rest))
    else ReadWord(s)
  }

  /** One or more elements and the closing bracket. */
  function ReadItems(s: string): (r: Option<(seq<Json>, string)>)
    ensures r.Some? ==> |r.value.1| < |s|
    decreases |s|, 1
  {
    match ReadValue(s)
    case None => None
    case Some((v, after)) =>
      var t := SkipWs(after);
      if t == "" then None
      else if t[0] == ']' then Some(([v], t[1..]))
      else if t[0] != ',' then None
      else
        match ReadItems(SkipWs(t[1..]))
        case None => None
        case Some((vs, rest)) => Some(([v] + vs, rest))
  }

  /** One or more members and the closing brace. */
  function ReadFields(s: string): (r: Option<(seq<Member>, string)>)
    ensures r.Some? ==> |r.value.1| < |s|
    decreases |s|, 1
  {
    if s == "" || s[0] != '"' then None
    else
      match ReadString(s[1..])
      case None => None
      case Some((key, afterKey)) =>
        var c := SkipWs(afterKey);
        if c == "" || c[0] != ':' then None
        else
          match ReadValue(SkipWs(c[1..]))
          case None => None
          case Some((v, after)) =>
            var t := SkipWs(after);
            if t == "" then None
            else if t[0] == '}' then Some(([Member(key, v)], t[1..]))
            else if t[0] != ',' then None
            else
              match ReadFields(SkipWs(t[1..]))
              case None => None
              case Some((fs, rest)) => Some(([Member(key, v)] + fs, rest))
  }

  /** `json.loads`, with None for a decoding error. */
  function Loads(s: string): Option<Json> {
    match ReadValue(SkipWs(s))
    case None => None
    case Some((v, rest)) => if SkipWs(rest) == "" then Some(v) else None
  }

  /* ---------- What was written is read back ---------- */

  /** Every number in the tree is one that Python would write. */
  predicate WellFormed(v: Json) {
    match v
    case Num(lexeme) => IsNumber(lexeme) && IsWord(lexeme)
    case Arr(items) => forall i :: 0 <= i < |items| ==> WellFormed(items[i])
    case Obj(fields) => forall i :: 0 <= i < |fields| ==> WellFormed(fields[i].value)
    case _ => true
  }

  predicate IsWord(w: string) {
    w != "" && forall i :: 0 <= i < |w| ==> IsWordChar(w[i])
  }

  /** A word ends before this text. */
  predicate Delimited(rest: string) {
    rest == "" || !IsWordChar(rest[0])
  }

  lemma {:induction false} WordEnds(w: string, rest: string)
    requires (forall i :: 0 <= i < |w| ==> IsWordChar(w[i])) && Delimited(rest)
    ensures WordLength(w + rest) == |w| && (w + rest)[..|w|] == w && (w + rest)[|w|..] == rest
  {
    if w == "" {
      assert w + rest == rest;
    } else {
      assert (w + rest)[1..] == w[1..] + rest;
      WordEnds(w[1..], rest);
    }
  }

  lemma ReadShortEscape(c: char, tail: string)
    requires c as int < 0x10000
    ensures ReadString(EscapeChar(c) + tail) == Push(c, ReadString(tail))
  {
    var n := c as int;
    var s := EscapeChar(c) + tail;
    if IsPlain(c) {
      assert s[1..] == tail;
    } else if |EscapeChar(c)| == 2 {
      assert s[0] == '\\' && s[1] == EscapeChar(c)[1] && s[2..] == tail;
    } else {
      assert s[0] == '\\' && s[1] == 'u';
      assert s[2..] == Hex4(n) + tail;
      Hex4RoundTrip(n, tail);
      assert s[6..] == s[2..][4..];
      assert n as char == c;
    }
  }

  lemma JoinSurrogates(n: int)
    requires 0 <= n < 0x100000
    ensures 0 <= n / 0x400 < 0x400 && 0 <= n % 0x400 < 0x400 && (n / 0x400) * 0x400 + n % 0x400 == n
  {
  }

  /** The text of a \\u escape, followed by `rest`. */
  function UnicodeEscapeTo(n: int, rest: string): string
    requires 0 <= n < 0x10000
  {
    ['\\', 'u'] + (Hex4(n) + rest)
  }

  lemma UnicodeEscapeParts(n: int, rest: string)
    requires 0 <= n < 0x10000
    ensures var s := UnicodeEscapeTo(n, rest);
            |s| == 6 + |rest| && s[0] == '\\' && s[1] == 'u' && Unhex4(s[2..]) == Some(n) && s[6..] == rest
  {
    var s := UnicodeEscapeTo(n, rest);
    Hex4RoundTrip(n, rest);
    assert s[2..] == Hex4(n) + rest;
    assert s[6..] == s[2..][4..];
  }

  lemma ReadSurrogates(hi: int, lo: int, c: char, tail: string)
    requires 0xD800 <= hi < 0xDC00 <= lo < 0xE000
    requires 0x10000 + (hi - 0xD800) * 0x400 + (lo - 0xDC00) == c as int
    ensures ReadString(UnicodeEscapeTo(hi, UnicodeEscapeTo(lo, tail))) == Push(c, ReadString(tail))
  {
    var low := UnicodeEscapeTo(lo, tail);
    var s := UnicodeEscapeTo(hi, low);
    UnicodeEscapeParts(lo, tail);
    UnicodeEscapeParts(hi, low);
    assert s[6] == low[0] && s[7] == low[1];
    assert s[8..] == low[2..] && s[12..] == low[6..];
  }

  /** The text of two \\u escapes as one string. */
  lemma LongEscapeText(hi: int, lo: int, text: string, tail: string)
    requires 0 <= hi < 0x10000 && 0 <= lo < 0x10000
    requires text == ['\\', 'u'] + Hex4(hi) + ['\\', 'u'] + Hex4(lo)
    ensures text + tail == UnicodeEscapeTo(hi, UnicodeEscapeTo(lo, tail))
  {
  }

  lemma ReadLongEscape(c: char, tail: string)
    requires c as int >= 0x10000
    ensures ReadString(EscapeChar(c) + tail) == Push(c, ReadString(tail))
  {
    var n := c as int - 0x10000;
    JoinSurrogates(n);
    var hi, lo := 0xD800 + n / 0x400, 0xDC00 + n % 0x400;
    LongEscapeText(hi, lo, EscapeChar(c), tail);
    ReadSurrogates(hi, lo, c, tail);
  }

  lemma {:induction false} ReadEscaped(s: string, rest: string)
    ensures ReadString(EscapeTo(s, rest)) == Some((s, rest))
  {
    if s == "" {
      assert (['"'] + rest)[1..] == rest;
    } else {
      ReadEscaped(s[1..], rest);
      if s[0] as int < 0x10000 {
        ReadShortEscape(s[0], EscapeTo(s[1..], rest));
      } else {
        ReadLongEscape(s[0], EscapeTo(s[1..], rest));
      }
      assert [s[0]] + s[1..] == s;
    }
  }

  /** Text that starts a value, a member or what follows one. */
  predicate Inked(s: string) {
    s != "" && !IsWs(s[0])
  }

  lemma {:induction false} SkipSpaces(n: nat, s: string)
    requires Inked(s)
    ensures SkipWs(Spaces(n) + s) == s
  {
    if n == 0 {
      assert Spaces(n) + s == s;
    } else {
      assert (Spaces(n) + s)[1..] == Spaces(n - 1) + s;
      SkipSpaces(n - 1, s);
    }
  }

  lemma SkipGap(indent: Option<nat>, level: nat, s: string)
    requires Inked(s)
    ensures SkipWs(Gap(indent, level) + s) == s
    ensures SkipWs(AfterComma(indent, level) + s) == s
    ensures !IsWordChar(s[0]) ==> Delimited(Gap(indent, level) + s)
  {
    if indent.None? {
      assert Gap(indent, level) + s == s;
      assert ([' '] + s)[1..] == s;
    } else {
      var n := indent.value * level;
      SkipSpaces(n, s);
      assert (['\n'] + Spaces(n) + s)[1..] == Spaces(n) + s;
    }
  }

  /** The text of a value starts with ink, and not with a closing bracket. */
  lemma DumpHead(v: Json, indent: Option<nat>, level: nat, rest: string)
    requires WellFormed(v)
    ensures var s := DumpTo(v, indent, level, rest); Inked(s) && s[0] != ']' && s[0] != '}'
  {
    if v.Num? {
      assert IsWordChar(v.lexeme[0]);
    }
  }

  lemma ReadDumpedWord(w: string, rest: string)
    requires IsWord(w) && Delimited(rest)
    ensures ReadValue(w + rest) == ReadWord(w + rest)
    ensures (w + rest)[..WordLength(w + rest)] == w && (w + rest)[WordLength(w + rest)..] == rest
  {
    WordEnds(w, rest);
    assert IsWordChar((w + rest)[0]);
  }

  /** The text of a well-formed value, whatever follows it, reads back as that value. */
  lemma {:induction false} ReadDumped(v: Json, indent: Option<nat>, level: nat, rest: string)
    requires WellFormed(v) && Delimited(rest)
    ensures ReadValue(DumpTo(v, indent, level, rest)) == Some((v, rest))
    decreases v, 1
  {
    var s := DumpTo(v, indent, level, rest);
    match v
    case Null => ReadDumpedWord("null", rest);
    case Bool(b) =>
      ReadDumpedWord("true", rest);
      ReadDumpedWord("false", rest);
    case Num(lexeme) => ReadDumpedNumber(lexeme, rest);
    case Str(text) =>
      ReadEscaped(text, rest);
      assert s[1..] == EscapeTo(text, rest);
    case Arr(items) => ReadDumpedArray(items, indent, level, rest);
    case Obj(fields) => ReadDumpedObject(fields, indent, level, rest);
  }

  lemma ReadDumpedArray(items: seq<Json>, indent: Option<nat>, level: nat, rest: string)
    requires WellFormed(Arr(items))
    ensures ReadValue(DumpTo(Arr(items), indent, level, rest)) == Some((Arr(items), rest))
    decreases items, 1
  {
    var s := DumpTo(Arr(items), indent, level, rest);
    if items == [] {
      assert s[1..] == [']'] + rest && ([']'] + rest)[1..] == rest;
    } else {
      var end := Gap(indent, level) + ([']'] + rest);
      var inside := DumpItemsTo(items, indent, level + 1, end);
      SkipGap(indent, level, [']'] + rest);
      DumpHead(items[0], indent, level + 1, AfterItem(items, indent, level + 1, end));
      SkipGap(indent, level + 1, inside);
      ReadDumpedItems(items, indent, level + 1, end, rest);
      OpenArray(Gap(indent, level + 1), inside, items, rest);
    }
  }

  lemma OpenArray(gap: string, inside: string, items: seq<Json>, rest: string)
    requires inside != "" && inside[0] != ']' && SkipWs(gap + inside) == inside
    requires ReadItems(inside) == Some((items, rest))
    ensures ReadValue(['['] + (gap + inside)) == Some((Arr(items), rest))
  {
    assert (['['] + (gap + inside))[1..] == gap + inside;
  }

  lemma OpenObject(gap: string, inside: string, fields: seq<Member>, rest: string)
    requires inside != "" && inside[0] == '"' && SkipWs(gap + inside) == inside
    requires ReadFields(inside) == Some((fields, rest))
    ensures ReadValue(['{'] + (gap + inside)) == Some((Obj(fields), rest))
  {
    assert (['{'] + (gap + inside))[1..] == gap + inside;
  }

  lemma ReadDumpedObject(fields: seq<Member>, indent: Option<nat>, level: nat, rest: string)
    requires WellFormed(Obj(fields))
    ensures ReadValue(DumpTo(Obj(fields), indent, level, rest)) == Some((Obj(fields), rest))
    decreases fields, 1
  {
    var s := DumpTo(Obj(fields), indent, level, rest);
    if fields == [] {
      assert s[1..] == ['}'] + rest && (['}'] + rest)[1..] == rest;
    } else {
      var end := Gap(indent, level) + (['}'] + rest);
      var inside := DumpFieldsTo(fields, indent, level + 1, end);
      SkipGap(indent, level, ['}'] + rest);
      SkipGap(indent, level + 1, inside);
      ReadDumpedFields(fields, indent, level + 1, end, rest);
      OpenObject(Gap(indent, level + 1), inside, fields, rest);
    }
  }

  lemma ReadDumpedNumber(lexeme: string, rest: string)
    requires IsNumber(lexeme) && IsWord(lexeme) && Delimited(rest)
    ensures ReadValue(lexeme + rest) == Some((Num(lexeme), rest))
  {
    ReadDumpedWord(lexeme, rest);
    WordEnds(lexeme, rest);
  }

  /** What follows the first element's text. */
  function AfterItem(items: seq<Json>, indent: Option<nat>, level: nat, end: string): string
    requires items != []
  {
    if |items| == 1 then end
    else [','] + (AfterComma(indent, level) + DumpItemsTo(items[1..], indent, level, end))
  }

  function AfterField(fields: seq<Member>, indent: Option<nat>, level: nat, end: string): string
    requires fields != []
  {
    if |fields| == 1 then end
    else [','] + (AfterComma(indent, level) + DumpFieldsTo(fields[1..], indent, level, end))
  }

  lemma {:induction false} ReadDumpedItems(items: seq<Json>, indent: Option<nat>, level: nat, end: string, rest: string)
    requires items != [] && forall i :: 0 <= i < |items| ==> WellFormed(items[i])
    requires SkipWs(end) == [']'] + rest && Delimited(end)
    ensures ReadItems(DumpItemsTo(items, indent, level, end)) == Some((items, rest))
    decreases items, 0
  {
    var v, after := items[0], AfterItem(items, indent, level, end);
    var value := DumpTo(v, indent, level, after);
    assert DumpItemsTo(items, indent, level, end) == value;
    ReadDumped(v, indent, level, after);
    if |items| > 1 {
      var vs := items[1..];
      var more := DumpItemsTo(vs, indent, level, end);
      DumpHead(vs[0], indent, level, AfterItem(vs, indent, level, end));
      SkipGap(indent, level, more);
      ReadDumpedItems(vs, indent, level, end, rest);
      ReadItemsOn(v, value, AfterComma(indent, level), more, vs, rest);
      HeadTail(items);
    } else {
      ReadItemsLast(v, value, end, rest);
      assert [v] == items;
    }
  }

  lemma HeadTail<T>(s: seq<T>)
    requires s != []
    ensures [s[0]] + s[1..] == s
  {
  }

  lemma ReadItemsLast(v: Json, value: string, end: string, rest: string)
    requires ReadValue(value) == Some((v, end)) && SkipWs(end) == [']'] + rest
    ensures ReadItems(value) == Some(([v], rest))
  {
    assert ([']'] + rest)[1..] == rest;
  }

  /** A value, a comma and more elements. */
  lemma ReadItemsOn(v: Json, value: string, gap: string, more: string, vs: seq<Json>, rest: string)
    requires ReadValue(value) == Some((v, [','] + (gap + more)))
    requires SkipWs(gap + more) == more && ReadItems(more) == Some((vs, rest))
    ensures ReadItems(value) == Some(([v] + vs, rest))
  {
    assert ([','] + (gap + more))[1..] == gap + more;
  }

  lemma {:induction false} ReadDumpedFields(fields: seq<Member>, indent: Option<nat>, level: nat, end: string,
                                            rest: string)
    requires fields != [] && forall i :: 0 <= i < |fields| ==> WellFormed(fields[i].value)
    requires SkipWs(end) == ['}'] + rest && Delimited(end)
    ensures ReadFields(DumpFieldsTo(fields, indent, level, end)) == Some((fields, rest))
    decreases fields, 0
  {
    var f := fields[0];
    var after := AfterField(fields, indent, level, end);
    ReadDumped(f.value, indent, level, after);
    DumpHead(f.value, indent, level, after);
    var value := DumpTo(f.value, indent, level, after);
    if |fields| > 1 {
      var more := DumpFieldsTo(fields[1..], indent, level, end);
      SkipGap(indent, level, more);
      ReadDumpedFields(fields[1..], indent, level, end, rest);
      ReadFieldsOn(f, value, AfterComma(indent, level), more, fields[1..], rest);
      HeadTail(fields);
    } else {
      ReadFieldsLast(f, value, end, rest);
      assert [f] == fields;
    }
  }

  lemma ReadFieldsOn(f: Member, value: string, gap: string, more: string, fs: seq<Member>, rest: string)
    requires Inked(value) && ReadValue(value) == Some((f.value, [','] + (gap + more)))
    requires SkipWs(gap + more) == more && ReadFields(more) == Some((fs, rest))
    ensures ReadFields(QuoteTo(f.key, ": " + value)) == Some(([f] + fs, rest))
  {
    ReadMember(f.key, f.value, value, [','] + (gap + more));
    assert ([','] + (gap + more))[1..] == gap + more;
  }

  lemma ReadFieldsLast(f: Member, value: string, end: string, rest: string)
    requires Inked(value) && ReadValue(value) == Some((f.value, end)) && SkipWs(end) == ['}'] + rest
    ensures ReadFields(QuoteTo(f.key, ": " + value)) == Some(([f], rest))
  {
    ReadMember(f.key, f.value, value, end);
    assert (['}'] + rest)[1..] == rest;
  }

  /** Reading a member's name and value leaves what follows the value. */
  lemma ReadMember(key: string, v: Json, value: string, after: string)
    requires Inked(value) && ReadValue(value) == Some((v, after))
    ensures var s := QuoteTo(key, ": " + value);
            var t := SkipWs(after);
            ReadFields(s) ==
            if t == "" then None
            else if t[0] == '}' then Some(([Member(key, v)], t[1..]))
            else if t[0] != ',' then None
            else match ReadFields(SkipWs(t[1..]))
                 case None => None
                 case Some((fs, rest)) => Some(([Member(key, v)] + fs, rest))
  {
    var s := QuoteTo(key, ": " + value);
    assert s[1..] == EscapeTo(key, ": " + value);
    ReadEscaped(key, ": " + value);
    assert (": " + value)[1..] == [' '] + value && ([' '] + value)[1..] == value;
    assert SkipWs(": " + value) == ": " + value && SkipWs([' '] + value) == value;
  }

  /* ---------- Writing is concatenation ---------- */

  lemma {:induction false} EscapeThen(s: string, rest: string, more: string)
    ensures EscapeTo(s, rest) + more == EscapeTo(s, rest + more)
  {
    if s == "" {
      assert ['"'] + rest + more == ['"'] + (rest + more);
    } else {
      EscapeThen(s[1..], rest, more);
      assert EscapeChar(s[0]) + EscapeTo(s[1..], rest) + more == EscapeChar(s[0]) + (EscapeTo(s[1..], rest) + more);
    }
  }

  lemma QuoteThen(s: string, rest: string, more: string)
    ensures QuoteTo(s, rest) + more == QuoteTo(s, rest + more)
  {
    EscapeThen(s, rest, more);
    assert ['"'] + EscapeTo(s, rest) + more == ['"'] + (EscapeTo(s, rest) + more);
  }

  lemma Assoc(a: string, b: string, c: string)
    ensures a + b + c == a + (b + c)
  {
  }

  /** A frame around some inner text, with more text after it. */
  lemma FrameThen(open: char, gap: string, inside: string, more: string)
    ensures [open] + (gap + inside) + more == [open] + (gap + (inside + more))
  {
  }

  /** What follows a value is simply appended to its text. */
  lemma {:induction false} DumpThen(v: Json, indent: Option<nat>, level: nat, rest: string, more: string)
    ensures DumpTo(v, indent, level, rest) + more == DumpTo(v, indent, level, rest + more)
    decreases v, 2
  {
    match v
    case Null => Assoc("null", rest, more);
    case Bool(b) => Assoc(if b then "true" else "false", rest, more);
    case Num(lexeme) => Assoc(lexeme, rest, more);
    case Str(s) => QuoteThen(s, rest, more);
    case Arr(items) => ArrayThen(items, indent, level, rest, more);
    case Obj(fields) => ObjectThen(fields, indent, level, rest, more);
  }

  lemma CloseThen(gap: string, close: char, rest: string, more: string)
    ensures gap + ([close] + rest) + more == gap + ([close] + (rest + more))
  {
  }

  lemma ArrayThen(items: seq<Json>, indent: Option<nat>, level: nat, rest: string, more: string)
    ensures DumpTo(Arr(items), indent, level, rest) + more == DumpTo(Arr(items), indent, level, rest + more)
    decreases items, 1
  {
    if items == [] {
      Assoc("[]", rest, more);
    } else {
      var end := Gap(indent, level) + ([']'] + rest);
      ItemsThen(items, indent, level + 1, end, more);
      CloseThen(Gap(indent, level), ']', rest, more);
      FrameThen('[', Gap(indent, level + 1), DumpItemsTo(items, indent, level + 1, end), more);
    }
  }

  lemma ObjectThen(fields: seq<Member>, indent: Option<nat>, level: nat, rest: string, more: string)
    ensures DumpTo(Obj(fields), indent, level, rest) + more == DumpTo(Obj(fields), indent, level, rest + more)
    decreases fields, 1
  {
    if fields == [] {
      Assoc("{}", rest, more);
    } else {
      var end := Gap(indent, level) + (['}'] + rest);
      FieldsThen(fields, indent, level + 1, end, more);
      CloseThen(Gap(indent, level), '}', rest, more);
      FrameThen('{', Gap(indent, level + 1), DumpFieldsTo(fields, indent, level + 1, end), more);
    }
  }

  lemma {:induction false} ItemsThen(items: seq<Json>, indent: Option<nat>, level: nat, rest: string, more: string)
    requires items != []
    ensures DumpItemsTo(items, indent, level, rest) + more == DumpItemsTo(items, indent, level, rest + more)
    decreases items, 0
  {
    if |items| > 1 {
      ItemsThen(items[1..], indent, level, rest, more);
      FrameThen(',', AfterComma(indent, level), DumpItemsTo(items[1..], indent, level, rest), more);
    }
    assert AfterItem(items, indent, level, rest) + more == AfterItem(items, indent, level, rest + more);
    DumpThen(items[0], indent, level, AfterItem(items, indent, level, rest), more);
  }

  lemma {:induction false} FieldsThen(fields: seq<Member>, indent: Option<nat>, level: nat, rest: string, more: string)
    requires fields != []
    ensures DumpFieldsTo(fields, indent, level, rest) + more == DumpFieldsTo(fields, indent, level, rest + more)
    decreases fields, 0
  {
    if |fields| > 1 {
      FieldsThen(fields[1..], indent, level, rest, more);
      FrameThen(',', AfterComma(indent, level), DumpFieldsTo(fields[1..], indent, level, rest), more);
    }
    var after := AfterField(fields, indent, level, rest);
    assert after + more == AfterField(fields, indent, level, rest + more);
    var value := DumpTo(fields[0].value, indent, level, after);
    DumpThen(fields[0].value, indent, level, after, more);
    QuoteThen(fields[0].key, ": " + value, more);
    Assoc(": ", value, more);
  }

  /** `loads(dumps(v))` is `v`, with any indentation. */
  lemma LoadsOfDumps(v: Json, indent: Option<nat>)
    requires WellFormed(v)
    ensures Loads(Dumps(v, indent)) == Some(v)
  {
    DumpHead(v, indent, 0, "");
    ReadDumped(v, indent, 0, "");
  }
}
