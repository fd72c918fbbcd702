/** The parts of Python's `str` that the modelled code relies on: `strip`,
    `split(sep)`, `sep.join`, `replace`, `format(text=...)`, `lower` and the
    rendering of integers with `str()` / f-strings. */
module Text {

  // ---------------------------------------------------------------------------
  // Whitespace and strip()

  /** Python's `str.isspace` for a single character. */
  predicate IsSpace(c: char) {
    c == ' ' || ('\t' <= c <= '\r') || ('\U{1C}' <= c <= '\U{1F}') || c == '\U{85}' || c == '\U{A0}'
    || c == '\U{1680}' || ('\U{2000}' <= c <= '\U{200A}') || c == '\U{2028}' || c == '\U{2029}'
    || c == '\U{202F}' || c == '\U{205F}' || c == '\U{3000}'
  }

  predicate AllSpace(s: string) {
    forall i | 0 <= i < |s| :: IsSpace(s[i])
  }

  /** `s.lstrip()`: the suffix left after the longest all-whitespace prefix. */
  function LStrip(s: string): (r: string)
    ensures |r| <= |s| && r == s[|s| - |r|..]
    ensures r == [] || !IsSpace(r[0])
    ensures AllSpace(s[..|s| - |r|])
  {
    if |s| > 0 && IsSpace(s[0]) then
      var r := LStrip(s[1..]);
      LStripStep(s, r);
      r
    else s
  }

  lemma LStripStep(s: string, r: string)
    requires |s| > 0 && IsSpace(s[0])
    requires |r| <= |s| - 1 && r == s[1..][|s| - 1 - |r|..] && AllSpace(s[1..][..|s| - 1 - |r|])
    ensures r == s[|s| - |r|..] && AllSpace(s[..|s| - |r|])
  {
    var t, u := s[..|s| - |r|], s[1..][..|s| - 1 - |r|];
    forall i | 0 <= i < |t| ensures IsSpace(t[i]) {
      if i > 0 { assert t[i] == u[i - 1]; }
    }
  }

  /** `s.rstrip()`: the prefix left after the longest all-whitespace suffix. */
  function RStrip(s: string): (r: string)
    ensures |r| <= |s| && r == s[..|r|]
    ensures r == [] || !IsSpace(r[|r| - 1])
    ensures AllSpace(s[|r|..])
  {
    if |s| > 0 && IsSpace(s[|s| - 1]) then
      var r := RStrip(s[..|s| - 1]);
      RStripStep(s, r);
      r
    else s
  }

  lemma RStripStep(s: string, r: string)
    requires |s| > 0 && IsSpace(s[|s| - 1])
    requires |r| <= |s| - 1 && r == s[..|s| - 1][..|r|] && AllSpace(s[..|s| - 1][|r|..])
    ensures r == s[..|r|] && AllSpace(s[|r|..])
  {
    var t, u := s[|r|..], s[..|s| - 1][|r|..];
    forall i | 0 <= i < |t| ensures IsSpace(t[i]) {
      if i < |u| { assert t[i] == u[i]; }
    }
  }

  /** `s.strip()`. */
  function Strip(s: string): (r: string)
    ensures |r| <= |s|
    ensures r == [] || (!IsSpace(r[0]) && !IsSpace(r[|r| - 1]))
    ensures r == [] <==> AllSpace(s)
  {
    RStrip(LStrip(s))
  }

  lemma {:induction false} RStripAppendSpace(x: string, w: string)
    requires AllSpace(w)
    ensures RStrip(x + w) == RStrip(x)
    decreases |w|
  {
    if w != [] {
      var xw := x + w;
      assert IsSpace(xw[|xw| - 1]);
      assert xw[..|xw| - 1] == x + w[..|w| - 1];
      RStripAppendSpace(x, w[..|w| - 1]);
    } else {
      assert x + w == x;
    }
  }

  lemma {:induction false} LStripAppendSpace(x: string, w: string)
    requires AllSpace(w)
    ensures LStrip(x + w) == if AllSpace(x) then LStrip(w) else LStrip(x) + w
    decreases |x|
  {
    if x == [] {
      assert x + w == w;
    } else if IsSpace(x[0]) {
      assert (x + w)[1..] == x[1..] + w;
      assert AllSpace(x) == AllSpace(x[1..]) by {
        if AllSpace(x[1..]) { forall i | 0 <= i < |x| ensures IsSpace(x[i]) { if i > 0 { assert x[i] == x[1..][i - 1]; } } }
      }
      LStripAppendSpace(x[1..], w);
    } else {
      assert !AllSpace(x);
    }
  }

  /** Trailing whitespace never changes what `strip()` returns. */
  lemma StripAppendSpace(x: string, w: string)
    requires AllSpace(w)
    ensures Strip(x + w) == Strip(x)
  {
    LStripAppendSpace(x, w);
    if AllSpace(x) {
      assert Strip(x) == [];
    } else {
      RStripAppendSpace(LStrip(x), w);
    }
  }

  /** Stripping twice is stripping once. */
  lemma StripIdempotent(s: string)
    ensures Strip(Strip(s)) == Strip(s)
  {
    var r := Strip(s);
    if r != [] {
      assert LStrip(r) == r;
    }
  }

  // ---------------------------------------------------------------------------
  // split(sep) and sep.join(parts)

  /** `[s.strip() for s in parts if s.strip()]`. */
  function NonBlankStripped(parts: seq<string>): (bs: seq<string>)
    ensures |bs| <= |parts|
    ensures forall b | b in bs :: b != "" && exists p | p in parts :: Strip(p) == b
    ensures forall p | p in parts && Strip(p) != "" :: Strip(p) in bs
  {
    if parts == [] then []
    else (if Strip(parts[0]) == "" then [] else [Strip(parts[0])]) + NonBlankStripped(parts[1..])
  }

  /** The blocks are stripped and none is empty. */
  lemma {:induction false} BlocksStripped(parts: seq<string>)
    ensures forall b | b in NonBlankStripped(parts) :: b != "" && Strip(b) == b
  {
    if parts != [] {
      var head := if Strip(parts[0]) == "" then [] else [Strip(parts[0])];
      var rest := NonBlankStripped(parts[1..]);
      assert NonBlankStripped(parts) == head + rest;
      BlocksStripped(parts[1..]);
      forall b | b in head + rest ensures b != "" && Strip(b) == b {
        if b in head {
          StripIdempotent(parts[0]);
        } else {
          assert b in rest;
        }
      }
    }
  }


  /** `s.split(sep)` for a non-empty `sep`: cut at every leftmost, non-overlapping occurrence. */
  function Split(s: string, sep: string): (parts: seq<string>)
    requires |sep| > 0
    ensures |parts| >= 1
    decreases |s|
  {
    if |s| < |sep| then [s]
    else if s[..|sep|] == sep then [""] + Split(s[|sep|..], sep)
    else
      var rest := Split(s[1..], sep);
      [[s[0]] + rest[0]] + rest[1..]
  }

  /** `sep.join(parts)`. */
  function Join(parts: seq<string>, sep: string): string
  {
    if |parts| == 0 then ""
    else if |parts| == 1 then parts[0]
    else parts[0] + sep + Join(parts[1..], sep)
  }

  lemma JoinConsHead(c: string, parts: seq<string>, sep: string)
    requires |parts| >= 1
    ensures Join([c + parts[0]] + parts[1..], sep) == c + Join(parts, sep)
  {
    var ps := [c + parts[0]] + parts[1..];
    assert ps[1..] == parts[1..];
  }

  lemma JoinConsEmpty(parts: seq<string>, sep: string)
    requires |parts| >= 1
    ensures Join([""] + parts, sep) == sep + Join(parts, sep)
  {
    assert ([""] + parts)[1..] == parts;
  }

  /** Joining the pieces of a split gives back the original string. */
  lemma {:induction false} JoinSplit(s: string, sep: string)
    requires |sep| > 0
    ensures Join(Split(s, sep), sep) == s
    decreases |s|
  {
    if |s| < |sep| {
    } else if s[..|sep|] == sep {
      var t := s[|sep|..];
      var rest := Split(t, sep);
      assert Split(s, sep) == [""] + rest;
      JoinSplit(t, sep);
      JoinConsEmpty(rest, sep);
      assert s == sep + t;
    } else {
      var rest := Split(s[1..], sep);
      assert Split(s, sep) == [[s[0]] + rest[0]] + rest[1..];
      JoinSplit(s[1..], sep);
      JoinConsHead([s[0]], rest, sep);
      assert s == [s[0]] + s[1..];
    }
  }

  lemma {:induction false} JoinAppend(parts: seq<string>, p: string, sep: string)
    requires |parts| >= 1
    ensures Join(parts + [p], sep) == Join(parts, sep) + sep + p
    decreases |parts|
  {
    if |parts| == 1 {
      assert (parts + [p])[1..] == [p];
    } else {
      assert (parts + [p])[1..] == parts[1..] + [p];
      JoinAppend(parts[1..], p, sep);
    }
  }

  function SumLengths(parts: seq<string>): nat {
    if parts == [] then 0 else |parts[0]| + SumLengths(parts[1..])
  }

  /** The joined string is the pieces plus one separator between each pair. */
  lemma {:induction false} JoinLength(parts: seq<string>, sep: string)
    requires |parts| >= 1
    ensures |Join(parts, sep)| == SumLengths(parts) + |sep| * (|parts| - 1)
    decreases |parts|
  {
    if |parts| > 1 { JoinLength(parts[1..], sep); }
  }

  function Count(s: string, c: char): nat {
    if s == [] then 0 else (if s[0] == c then 1 else 0) + Count(s[1..], c)
  }

  /** Splitting on one character yields one more piece than there are occurrences. */
  lemma {:induction false} SplitCharCount(s: string, c: char)
    ensures |Split(s, [c])| == Count(s, c) + 1
    decreases |s|
  {
    if s != [] {
      SplitCharCount(s[1..], c);
      assert s[..1] == [s[0]];
    }
  }

  // ---------------------------------------------------------------------------
  // replace() and format()

  /** `"".join(...)` of `replacement` before every character and once at the end:
      Python's `s.replace("", replacement)`. */
  function Interleave(s: string, replacement: string): string {
    if s == [] then replacement else replacement + [s[0]] + Interleave(s[1..], replacement)
  }

  /** `s.replace(pattern, replacement)`: every leftmost, non-overlapping occurrence. */
  function ReplaceAll(s: string, pattern: string, replacement: string): string {
    if |pattern| == 0 then Interleave(s, replacement) else Join(Split(s, pattern), replacement)
  }

  const TextField: string := "{text}"

  /** `template.format(text=value)` for templates whose only replacement field is `{text}`. */
  function Format(template: string, value: string): string {
    ReplaceAll(template, TextField, value)
  }

  predicate NoBrace(s: string) {
    forall i | 0 <= i < |s| :: s[i] != '{'
  }

  lemma {:induction false} SplitBeforeField(prefix: string)
    requires NoBrace(prefix)
    ensures Split(prefix + TextField, TextField) == [prefix, ""]
    decreases |prefix|
  {
    if prefix == [] {
      assert prefix + TextField == TextField;
      assert TextField[|TextField|..] == "";
    } else {
      var s := prefix + TextField;
      assert s[0] == prefix[0];
      assert s[..|TextField|] != TextField by { assert s[..|TextField|][0] == prefix[0]; }
      assert s[1..] == prefix[1..] + TextField;
      SplitBeforeField(prefix[1..]);
      assert [prefix[0]] + prefix[1..] == prefix;
    }
  }

  /** A template that ends in the single `{text}` field formats to its instructions followed by the text. */
  lemma FormatFieldAtEnd(prefix: string, value: string)
    requires NoBrace(prefix)
    ensures Format(prefix + TextField, value) == prefix + value
  {
    SplitBeforeField(prefix);
    assert [prefix, ""][1..] == [""];
    assert Join([prefix, ""], value) == prefix + value + Join([""], value);
  }

  // ---------------------------------------------------------------------------
  // Integers as text: str(n)

  predicate IsDigit(c: char) {
    '0' <= c <= '9'
  }

  predicate AllDigits(s: string) {
    forall i | 0 <= i < |s| :: IsDigit(s[i])
  }

  function DigitChar(d: nat): (c: char)
    requires d < 10
    ensures IsDigit(c)
  {
    ('0' as int + d) as char
  }

  /** `str(n)` for a non-negative integer: decimal, no leading zeros. */
  function NatToString(n: nat): (s: string)
    ensures |s| >= 1 && AllDigits(s)
    ensures s[0] == '0' ==> n == 0
  {
    if n < 10 then [DigitChar(n)] else NatToString(n / 10) + [DigitChar(n % 10)]
  }

  /** `int(s)` for a string of decimal digits. */
  function DigitsValue(s: string): nat
    requires AllDigits(s)
  {
    if s == [] then 0 else DigitsValue(s[..|s| - 1]) * 10 + (s[|s| - 1] as int - '0' as int)
  }

  lemma {:induction false} DigitsValueOfNatToString(n: nat)
    ensures DigitsValue(NatToString(n)) == n
  {
    if n >= 10 {
      var s := NatToString(n);
      assert s[..|s| - 1] == NatToString(n / 10);
      DigitsValueOfNatToString(n / 10);
    }
  }

  /** Distinct numbers are rendered differently. */
  lemma NatToStringInjective(a: nat, b: nat)
    requires NatToString(a) == NatToString(b)
    ensures a == b
  {
    DigitsValueOfNatToString(a);
    DigitsValueOfNatToString(b);
  }

  /** `str(i)` for any integer. */
  function IntToString(i: int): string {
    if i < 0 then "-" + NatToString(-i) else NatToString(i)
  }

  // ---------------------------------------------------------------------------
  // lower()

  /** The capitals `LowerChar` lowers: ASCII A-Z and U+0400-U+042F. */
  predicate Capital(c: char) {
    'A' <= c <= 'Z' || '\U{0400}' <= c <= '\U{042F}'
  }

  /** `c.lower()` for ASCII letters and the basic Cyrillic capitals
      U+0400-U+042F. Other characters are left as they are; no character
      outside these capitals lowers to a basic Cyrillic small letter. */
  function LowerChar(c: char): char {
    if 'A' <= c <= 'Z' then (c as int + 32) as char
    else if '\U{0410}' <= c <= '\U{042F}' then (c as int + 32) as char
    else if '\U{0400}' <= c <= '\U{040F}' then (c as int + 80) as char
    else c
  }

  /** `s.lower()` on the capitals above. */
  function Lower(s: string): (r: string)
    ensures |r| == |s|
  {
    seq(|s|, i requires 0 <= i < |s| => LowerChar(s[i]))
  }

  /** Lower-casing leaves no capital, changes every capital, and leaves every
      other character where it was. */
  lemma LowerCase(s: string)
    ensures forall i | 0 <= i < |s| :: !Capital(Lower(s)[i])
    ensures forall i | 0 <= i < |s| :: !Capital(s[i]) ==> Lower(s)[i] == s[i]
    ensures forall i | 0 <= i < |s| :: Capital(s[i]) ==> Lower(s)[i] != s[i]
  {
  }
}
