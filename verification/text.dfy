/** String helpers with JavaScript semantics: decimal rendering of numbers,
    `parseInt(s, 10)`, `indexOf`, `split`, `padStart`, the quote doubling of
    `replace(/"/g, '""')` and `String.fromCharCode`. */
module Text {
  import opened Types

  predicate IsDigit(c: char) {
    '0' <= c <= '9'
  }

  predicate AllDigits(s: string) {
    forall i :: 0 <= i < |s| ==> IsDigit(s[i])
  }

  function DigitChar(d: nat): (c: char)
    requires d < 10
    ensures IsDigit(c) && c as int - '0' as int == d
  {
    ('0' as int + d) as char
  }

  /** The number a string of decimal digits denotes (0 for the empty string). */
  function DigitsValue(s: string): nat
    requires AllDigits(s)
  {
    if |s| == 0 then 0 else DigitsValue(s[..|s| - 1]) * 10 + (s[|s| - 1] as int - '0' as int)
  }

  /** `String(n)` for a natural number: its decimal digits, no leading zero. */
  function NatToString(n: nat): (r: string)
    ensures |r| > 0 && AllDigits(r)
    ensures DigitsValue(r) == n
    ensures r[0] == '0' ==> n == 0
    ensures |r| == 1 <==> n < 10
    ensures n < 100 ==> |r| <= 2
  {
    if n < 10 then [DigitChar(n)]
    else
      var r := NatToString(n / 10) + [DigitChar(n % 10)];
      assert r[..|r| - 1] == NatToString(n / 10);
      r
  }

  lemma NatToStringInjective(a: nat, b: nat)
    requires NatToString(a) == NatToString(b)
    ensures a == b
  {
  }

  /** The longest prefix of `s` made of decimal digits. */
  function LeadingDigits(s: string): (r: string)
    ensures r <= s && AllDigits(r)
    ensures |r| < |s| ==> !IsDigit(s[|r|])
  {
    if |s| > 0 && IsDigit(s[0]) then [s[0]] + LeadingDigits(s[1..]) else []
  }

  /** The result of `parseInt`: a number or `NaN`. */
  datatype ParsedInt = NaN | Num(value: int)

  /** The white space `parseInt` skips before the number (the ASCII and
      Latin-1 members of ECMAScript's StrWhiteSpaceChar). */
  predicate IsJsSpace(c: char) {
    c == ' ' || c == '\t' || c == '\n' || c == '\r' || c == '\U{000B}' || c == '\U{000C}' || c == '\U{00A0}' || c == '\U{FEFF}'
  }

  /** `s` without its leading white space: a suffix of `s` that does not
      start with white space (TrimSkipsSpace: all it drops is white space). */
  function TrimStart(s: string): (r: string)
    ensures |r| <= |s| && r == s[|s| - |r|..]
    ensures |r| > 0 ==> !IsJsSpace(r[0])
  {
    if |s| > 0 && IsJsSpace(s[0]) then TrimStart(s[1..]) else s
  }

  lemma {:induction false} TrimSkipsSpace(s: string)
    ensures forall i :: 0 <= i < |s| - |TrimStart(s)| ==> IsJsSpace(s[i])
    decreases |s|
  {
    if |s| > 0 && IsJsSpace(s[0]) {
      TrimSkipsSpace(s[1..]);
      assert forall i :: 1 <= i < |s| - |TrimStart(s)| ==> s[i] == s[1..][i - 1];
    }
  }

  predicate StartsWithDigit(t: string) {
    |t| > 0 && IsDigit(t[0])
  }

  predicate IsSign(c: char) {
    c == '-' || c == '+'
  }

  /** `t` starts with a digit, or with a sign followed by a digit. */
  predicate SignedNumeral(t: string) {
    StartsWithDigit(t) || (|t| > 0 && IsSign(t[0]) && StartsWithDigit(t[1..]))
  }

  /** `parseInt(s, 10)`: skip leading white space, read an optional sign, then
      the longest run of digits; no digit at all gives `NaN`. */
  function ParseInt(s: string): (r: ParsedInt)
    ensures |s| > 0 && IsDigit(s[0]) ==> r == Num(DigitsValue(LeadingDigits(s)))
    ensures r.NaN? <==> !SignedNumeral(TrimStart(s))
    ensures StartsWithDigit(TrimStart(s)) ==> r == Num(DigitsValue(LeadingDigits(TrimStart(s))))
    ensures var t := TrimStart(s); |t| > 0 && t[0] == '+' && StartsWithDigit(t[1..]) ==>
      r == Num(DigitsValue(LeadingDigits(t[1..])))
    ensures var t := TrimStart(s); |t| > 0 && t[0] == '-' && StartsWithDigit(t[1..]) ==>
      r == Num(-(DigitsValue(LeadingDigits(t[1..])) as int))
  {
    TrimDigitStart(s);
    ReadSigned(TrimStart(s))
  }

  /** A text that starts with a digit has no white space to skip. */
  lemma TrimDigitStart(s: string)
    ensures |s| > 0 && IsDigit(s[0]) ==> TrimStart(s) == s
  {
  }

  /** A number needs a digit somewhere in the text. */
  lemma ParseIntNeedsDigit(s: string)
    ensures ParseInt(s).Num? ==> exists i :: 0 <= i < |s| && IsDigit(s[i])
  {
    var t := TrimStart(s);
    if ParseInt(s).Num? {
      var k := if StartsWithDigit(t) then |s| - |t| else |s| - |t| + 1;
      assert t[k - (|s| - |t|)] == s[k];
    }
  }

  /** An optional sign and the longest run of digits after it. */
  function ReadSigned(t: string): (r: ParsedInt)
    ensures r.NaN? <==> !SignedNumeral(t)
    ensures StartsWithDigit(t) ==> r == Num(DigitsValue(LeadingDigits(t)))
    ensures |t| > 0 && t[0] == '+' && StartsWithDigit(t[1..]) ==> r == Num(DigitsValue(LeadingDigits(t[1..])))
    ensures |t| > 0 && t[0] == '-' && StartsWithDigit(t[1..]) ==> r == Num(-(DigitsValue(LeadingDigits(t[1..])) as int))
  {
    var negative := |t| > 0 && t[0] == '-';
    var body := if |t| > 0 && IsSign(t[0]) then t[1..] else t;
    var digits := LeadingDigits(body);
    if |digits| == 0 then NaN
    else
      var v: int := DigitsValue(digits);
      Num(if negative then -v else v)
  }

  lemma {:induction false} LeadingDigitsOfDigits(s: string, rest: string)
    requires AllDigits(s)
    requires |rest| == 0 || !IsDigit(rest[0])
    ensures LeadingDigits(s + rest) == s
  {
    if |s| > 0 {
      assert (s + rest)[1..] == s[1..] + rest;
      LeadingDigitsOfDigits(s[1..], rest);
    }
  }

  /** `parseInt` reads back what `String(n)` wrote, whatever non-digit follows. */
  lemma ParseIntOfNat(n: nat, rest: string)
    requires |rest| == 0 || !IsDigit(rest[0])
    ensures ParseInt(NatToString(n) + rest) == Num(n)
  {
    LeadingDigitsOfDigits(NatToString(n), rest);
  }

  /** `sep` occurs in `s` starting at index `i`. */
  predicate OccursAt(s: string, sep: string, i: int) {
    0 <= i && i + |sep| <= |s| && s[i..i + |sep|] == sep
  }

  predicate Contains(s: string, sep: string) {
    exists i :: 0 <= i <= |s| && OccursAt(s, sep, i)
  }

  /** `s.indexOf(sep, k)`: the first occurrence of `sep` at or after `k`. */
  function IndexOfFrom(s: string, sep: string, k: nat): (r: Option<nat>)
    requires k <= |s|
    ensures r.Some? ==> k <= r.value && OccursAt(s, sep, r.value)
    ensures r.Some? ==> forall i :: k <= i < r.value ==> !OccursAt(s, sep, i)
    ensures r.None? ==> forall i :: k <= i ==> !OccursAt(s, sep, i)
    decreases |s| - k
  {
    if OccursAt(s, sep, k) then Some(k)
    else if k == |s| then None
    else IndexOfFrom(s, sep, k + 1)
  }

  /** Searching from `k` finds nothing exactly when the text from `k` on has
      no occurrence. */
  lemma IndexOfFromShift(s: string, sep: string, k: nat)
    requires k <= |s|
    ensures IndexOfFrom(s, sep, k).None? <==> IndexOfFrom(s[k..], sep, 0).None?
  {
    match IndexOfFrom(s[k..], sep, 0)
    case Some(j) =>
      assert s[k + j..k + j + |sep|] == s[k..][j..j + |sep|];
      assert OccursAt(s, sep, k + j);
    case None =>
      match IndexOfFrom(s, sep, k)
      case Some(j) =>
        assert s[k..][j - k..j - k + |sep|] == s[j..j + |sep|];
        assert OccursAt(s[k..], sep, j - k);
      case None =>
  }

  /** `parts.join(sep)`. */
  function Join(parts: seq<string>, sep: string): string
    requires |parts| > 0
  {
    if |parts| == 1 then parts[0] else parts[0] + sep + Join(parts[1..], sep)
  }

  /** `s.split(sep)` for a non-empty separator: cut at each occurrence, scanning
      left to right and resuming after the occurrence just cut. */
  function Split(s: string, sep: string): (parts: seq<string>)
    requires |sep| > 0
    ensures |parts| > 0
    ensures Join(parts, sep) == s
    ensures forall k :: 0 <= k < |parts| ==> !Contains(parts[k], sep)
    ensures |parts| == 1 <==> IndexOfFrom(s, sep, 0).None?
    ensures |parts| > 1 ==> IndexOfFrom(s, sep, 0) == Some(|parts[0]|)
    ensures forall k :: 0 <= k < |parts| - 1 ==> IndexOfFrom(Join(parts[k..], sep), sep, 0) == Some(|parts[k]|)
    decreases |s|
  {
    match IndexOfFrom(s, sep, 0)
    case None =>
      assert forall i :: !OccursAt(s, sep, i);
      [s]
    case Some(i) =>
      var first := s[..i];
      var rest := Split(s[i + |sep|..], sep);
      NoOccurrenceBefore(s, sep, i);
      ConsParts(s, sep, first, rest);
      [first] + rest
  }

  /** The text before the first occurrence does not contain the separator. */
  lemma NoOccurrenceBefore(s: string, sep: string, i: nat)
    requires |sep| > 0
    requires IndexOfFrom(s, sep, 0) == Some(i)
    ensures !Contains(s[..i], sep)
  {
    forall j | OccursAt(s[..i], sep, j)
      ensures false
    {
      assert s[j..j + |sep|] == s[..i][j..j + |sep|];
      assert OccursAt(s, sep, j);
    }
  }

  /** Putting the text before the first occurrence in front of the parts of
      the text after it keeps every property `split` promises. */
  lemma ConsParts(s: string, sep: string, first: string, rest: seq<string>)
    requires |sep| > 0 && |rest| > 0
    requires IndexOfFrom(s, sep, 0) == Some(|first|) && first == s[..|first|]
    requires !Contains(first, sep)
    requires Join(rest, sep) == s[|first| + |sep|..]
    requires forall k :: 0 <= k < |rest| ==> !Contains(rest[k], sep)
    requires forall k :: 0 <= k < |rest| - 1 ==> IndexOfFrom(Join(rest[k..], sep), sep, 0) == Some(|rest[k]|)
    ensures Join([first] + rest, sep) == s
    ensures forall k :: 0 <= k < |[first] + rest| ==> !Contains(([first] + rest)[k], sep)
    ensures forall k :: 0 <= k < |[first] + rest| - 1 ==>
      IndexOfFrom(Join(([first] + rest)[k..], sep), sep, 0) == Some(|([first] + rest)[k]|)
  {
    var parts := [first] + rest;
    assert parts[1..] == rest;
    assert s == first + sep + s[|first| + |sep|..];
    forall k | 0 <= k < |parts| - 1
      ensures IndexOfFrom(Join(parts[k..], sep), sep, 0) == Some(|parts[k]|)
    {
      if k == 0 {
        assert parts[0..] == parts;
      } else {
        assert parts[k..] == rest[k - 1..];
      }
    }
  }

  /** After the first cut, `split` goes on with the text that follows it. */
  lemma SplitCutsFirst(s: string, sep: string)
    requires |sep| > 0
    requires IndexOfFrom(s, sep, 0).Some?
    ensures var i := IndexOfFrom(s, sep, 0).value;
      Split(s, sep) == [s[..i]] + Split(s[i + |sep|..], sep)
  {
  }

  /** `sep` occurs in `s`, and not again from the end of its first occurrence
      on: `split` cuts `s` exactly once. */
  predicate OneCut(s: string, sep: string) {
    IndexOfFrom(s, sep, 0).Some? && IndexOfFrom(s, sep, IndexOfFrom(s, sep, 0).value + |sep|).None?
  }

  /** `split` gives exactly two parts iff it cuts once. */
  lemma SplitInTwo(s: string, sep: string)
    requires |sep| > 0
    ensures |Split(s, sep)| == 2 <==> OneCut(s, sep)
  {
    if IndexOfFrom(s, sep, 0).Some? {
      var i := IndexOfFrom(s, sep, 0).value;
      var rest := s[i + |sep|..];
      SplitCutsFirst(s, sep);
      IndexOfFromShift(s, sep, i + |sep|);
      assert |Split(s, sep)| == 1 + |Split(rest, sep)|;
    }
  }

  /** `s.replace(/"/g, '""')`: every double quote doubled. */
  function EscapeQuotes(s: string): (r: string)
    ensures |r| >= |s|
    ensures (forall i :: 0 <= i < |s| ==> s[i] != '"') ==> r == s
  {
    if |s| == 0 then []
    else (if s[0] == '"' then "\"\"" else [s[0]]) + EscapeQuotes(s[1..])
  }

  function Repeat(c: char, n: nat): (r: string)
    ensures |r| == n && forall i :: 0 <= i < n ==> r[i] == c
  {
    if n == 0 then [] else [c] + Repeat(c, n - 1)
  }

  /** `s.padStart(width, c)` with a one-character pad. */
  function PadStart(s: string, width: nat, c: char): (r: string)
    ensures |r| == if |s| >= width then |s| else width
    ensures r[|r| - |s|..] == s
    ensures forall i :: 0 <= i < |r| - |s| ==> r[i] == c
  {
    if |s| >= width then s else Repeat(c, width - |s|) + s
  }

  /** `String.fromCharCode(code)`: the UTF-16 code unit `code` mod 2^16. A
      lone surrogate has no `char` here and stands as U+FFFD, the character a
      UTF-8 encoder writes for it. */
  function FromCharCode(code: int): (c: char)
    ensures 0 <= code < 0xD800 ==> c as int == code
    ensures 0xD800 <= code % 0x1_0000 <= 0xDFFF ==> c == '\U{FFFD}'
  {
    var unit := code % 0x1_0000;
    if 0xD800 <= unit <= 0xDFFF then '\U{FFFD}' else unit as char
  }
}
