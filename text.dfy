/** The JavaScript string operations the controllers rely on: truthiness of
    body fields, `trim`, ASCII `toLowerCase`, `split` with a one-character
    separator, `startsWith` and `parseInt` without a radix. */
module JsText {
  import opened Wrappers

  /** JavaScript truthiness of a string-valued body field: `undefined` and
      the empty string are falsy, every other string is truthy. */
  predicate Truthy(v: Option<string>) {
    v.Some? && v.value != ""
  }

  /** `v || fallback` for a string-valued field. */
  function OrElse(v: Option<string>, fallback: string): string {
    if Truthy(v) then v.value else fallback
  }

  /** The WhiteSpace and LineTerminator code points of ECMA-262, the set that
      `String.prototype.trim`, `parseInt` and the regular-expression class `\s` share. */
  predicate IsSpace(c: char) {
    c == '\t' || c == '\n' || c == '\U{B}' || c == '\U{C}' || c == '\r' || c == ' '
    || c == '\U{A0}' || c == '\U{1680}' || ('\U{2000}' <= c <= '\U{200A}')
    || c == '\U{2028}' || c == '\U{2029}' || c == '\U{202F}' || c == '\U{205F}'
    || c == '\U{3000}' || c == '\U{FEFF}'
  }

  predicate IsDecDigit(c: char) {
    '0' <= c <= '9'
  }

  /** The regular-expression class `\w`: ASCII letters, digits and '_'. */
  predicate IsWordChar(c: char) {
    ('a' <= c <= 'z') || ('A' <= c <= 'Z') || IsDecDigit(c) || c == '_'
  }

  /** `s.trimStart()`: drops the leading white space and nothing else. */
  function TrimStart(s: string): (r: string)
    ensures |r| <= |s| && r == s[|s| - |r|..]
    ensures forall k :: 0 <= k < |s| - |r| ==> IsSpace(s[k])
    ensures r != [] ==> !IsSpace(r[0])
  {
    if s != [] && IsSpace(s[0]) then TrimStart(s[1..]) else s
  }

  /** White space followed by a non-space start is trimmed to that start. */
  lemma {:induction false} TrimStartSkips(sp: string, r: string)
    requires forall k :: 0 <= k < |sp| ==> IsSpace(sp[k])
    requires r != [] ==> !IsSpace(r[0])
    ensures TrimStart(sp + r) == r
  {
    if sp != [] {
      assert (sp + r)[1..] == sp[1..] + r;
      TrimStartSkips(sp[1..], r);
    } else {
      assert sp + r == r;
    }
  }

  /** `s.trimEnd()`: drops the trailing white space and nothing else. */
  function TrimEnd(s: string): (r: string)
    ensures |r| <= |s| && r == s[..|r|]
    ensures forall k :: |r| <= k < |s| ==> IsSpace(s[k])
    ensures r != [] ==> !IsSpace(r[|r| - 1])
  {
    if s != [] && IsSpace(s[|s| - 1]) then TrimEnd(s[..|s| - 1]) else s
  }

  /** `s.trim()`. */
  function Trim(s: string): string {
    TrimEnd(TrimStart(s))
  }

  /** A string that neither starts nor ends with white space is its own trim. */
  lemma TrimKeepsUnpadded(s: string)
    requires s != [] && !IsSpace(s[0]) && !IsSpace(s[|s| - 1])
    ensures Trim(s) == s
  {
    assert TrimStart(s) == s;
  }

  /** The trimmed string neither starts nor ends with white space. */
  lemma TrimIsUnpadded(s: string)
    ensures Trim(s) != [] ==> !IsSpace(Trim(s)[0]) && !IsSpace(Trim(s)[|Trim(s)| - 1])
  {
    var t := TrimStart(s);
    if Trim(s) != [] {
      assert Trim(s) == t[..|Trim(s)|];
      assert Trim(s)[0] == t[0];
    }
  }

  function LowerChar(c: char): char {
    if 'A' <= c <= 'Z' then (c as int + 32) as char else c
  }

  /** `s.toLowerCase()` on ASCII letters; every other character is kept. */
  function AsciiLower(s: string): (r: string)
    ensures |r| == |s|
    ensures forall i :: 0 <= i < |s| ==> r[i] == LowerChar(s[i])
  {
    seq(|s|, i requires 0 <= i < |s| => LowerChar(s[i]))
  }

  /** Lower-casing twice is lower-casing once. */
  lemma AsciiLowerIdempotent(s: string)
    ensures AsciiLower(AsciiLower(s)) == AsciiLower(s)
  {
    var t := AsciiLower(s);
    assert forall i :: 0 <= i < |s| ==> LowerChar(t[i]) == t[i];
  }

  /** Trimming twice is trimming once. */
  lemma TrimIdempotent(s: string)
    ensures Trim(Trim(s)) == Trim(s)
  {
    TrimIsUnpadded(s);
    if Trim(s) != [] {
      TrimKeepsUnpadded(Trim(s));
    }
  }

  predicate StartsWith(s: string, prefix: string) {
    |prefix| <= |s| && s[..|prefix|] == prefix
  }

  /** `s.split(sep)` for a one-character separator: the maximal runs between
      separators, so there is always at least one part and no part holds the separator. */
  function Split(s: string, sep: char): (parts: seq<string>)
    ensures |parts| >= 1
    ensures forall i :: 0 <= i < |parts| ==> sep !in parts[i]
  {
    if s == [] then [""]
    else
      var rest := Split(s[1..], sep);
      if s[0] == sep then [""] + rest
      else [[s[0]] + rest[0]] + rest[1..]
  }

  /** `s.indexOf(c)`: the first position of `c`, or -1. */
  function IndexOf(s: string, c: char): (i: int)
    ensures -1 <= i < |s|
    ensures i >= 0 ==> s[i] == c && c !in s[..i]
    ensures i == -1 ==> c !in s
  {
    if s == [] then -1
    else if s[0] == c then 0
    else
      var j := IndexOf(s[1..], c);
      if j == -1 then -1
      else
        assert s[..j + 1] == [s[0]] + s[1..][..j];
        j + 1
  }

  /** `s.lastIndexOf(c)`: the last position of `c`, or -1. */
  function LastIndexOf(s: string, c: char): (i: int)
    ensures -1 <= i < |s|
    ensures i >= 0 ==> s[i] == c && c !in s[i + 1..]
    ensures i == -1 ==> c !in s
  {
    if s == [] then -1
    else if s[|s| - 1] == c then |s| - 1
    else
      var j := LastIndexOf(s[..|s| - 1], c);
      if j == -1 then -1
      else
        assert s[j + 1..] == s[..|s| - 1][j + 1..] + [s[|s| - 1]];
        j
  }

  /** A position holding `c` with no `c` before it is the first position of `c`. */
  lemma IndexOfIs(s: string, c: char, q: int)
    requires 0 <= q < |s| && s[q] == c && c !in s[..q]
    ensures IndexOf(s, c) == q
  {
  }

  /** A position holding `c` with no `c` after it is the last position of `c`. */
  lemma LastIndexOfIs(s: string, c: char, q: int)
    requires 0 <= q < |s| && s[q] == c && c !in s[q + 1..]
    ensures LastIndexOf(s, c) == q
  {
  }

  /** `parts.join(sep)`. */
  function Join(parts: seq<string>, sep: char): string
    requires |parts| >= 1
  {
    if |parts| == 1 then parts[0] else parts[0] + [sep] + Join(parts[1..], sep)
  }

  function LastPart(s: string, sep: char): string {
    var parts := Split(s, sep);
    parts[|parts| - 1]
  }

  function FirstPart(s: string, sep: char): string {
    Split(s, sep)[0]
  }

  /** Joining the parts gives back the string. */
  lemma {:induction false} JoinSplit(s: string, sep: char)
    ensures Join(Split(s, sep), sep) == s
  {
    if s != [] {
      var rest := Split(s[1..], sep);
      JoinSplit(s[1..], sep);
      if s[0] == sep {
        assert s == [sep] + s[1..];
      } else if |rest| == 1 {
        assert s == [s[0]] + s[1..];
      } else {
        assert Split(s, sep)[1..] == rest[1..];
        assert s == [s[0]] + s[1..];
      }
    }
  }

  /** A string without the separator is a single part. */
  lemma {:induction false} SplitWithoutSeparator(s: string, sep: char)
    requires sep !in s
    ensures Split(s, sep) == [s]
  {
    if s != [] {
      SplitWithoutSeparator(s[1..], sep);
      assert s == [s[0]] + s[1..];
    }
  }

  lemma AppendAssoc<T>(x: seq<T>, y: seq<T>, z: seq<T>)
    ensures x + (y + z) == (x + y) + z
  {
  }

  lemma TakeDrop<T>(s: seq<T>, n: int)
    requires 0 <= n <= |s|
    ensures s[..n] + s[n..] == s
  {
  }

  /** One step of `Split`: the first character either ends the first part or joins it. */
  lemma SplitCons(c: char, t: string, sep: char)
    ensures Split([c] + t, sep) ==
      if c == sep then [""] + Split(t, sep) else [[c] + Split(t, sep)[0]] + Split(t, sep)[1..]
  {
    assert ([c] + t)[1..] == t;
  }

  /** Splitting at one occurrence of the separator splits the two sides independently. */
  lemma {:induction false} SplitAround(a: string, b: string, sep: char)
    ensures Split(a + [sep] + b, sep) == Split(a, sep) + Split(b, sep)
  {
    var s := a + [sep] + b;
    var right := Split(b, sep);
    if a == [] {
      assert s == [sep] + b;
      SplitCons(sep, b, sep);
      assert Split(s, sep) == [""] + right;
    } else {
      var tail := a[1..];
      var rest := tail + [sep] + b;
      assert s == [a[0]] + rest;
      assert a == [a[0]] + tail;
      SplitAround(tail, b, sep);
      var left := Split(tail, sep);
      assert Split(rest, sep) == left + right;
      SplitCons(a[0], rest, sep);
      SplitCons(a[0], tail, sep);
      if a[0] == sep {
        assert Split(s, sep) == [""] + (left + right);
        assert Split(a, sep) == [""] + left;
        AppendAssoc([""], left, right);
      } else {
        assert (left + right)[0] == left[0];
        assert (left + right)[1..] == left[1..] + right;
        assert Split(s, sep) == [[a[0]] + left[0]] + (left[1..] + right);
        assert Split(a, sep) == [[a[0]] + left[0]] + left[1..];
        AppendAssoc([[a[0]] + left[0]], left[1..], right);
      }
    }
  }

  /** Splitting the joined parts gives back the parts, when none of them holds the separator. */
  lemma {:induction false} SplitJoin(parts: seq<string>, sep: char)
    requires |parts| >= 1
    requires forall i :: 0 <= i < |parts| ==> sep !in parts[i]
    ensures Split(Join(parts, sep), sep) == parts
  {
    if |parts| == 1 {
      SplitWithoutSeparator(parts[0], sep);
    } else {
      SplitJoin(parts[1..], sep);
      SplitWithoutSeparator(parts[0], sep);
      SplitAround(parts[0], Join(parts[1..], sep), sep);
      assert [parts[0]] + parts[1..] == parts;
    }
  }

  /** The last part is everything after the last separator. */
  lemma LastPartAfterSeparator(a: string, b: string, sep: char)
    requires sep !in b
    ensures LastPart(a + [sep] + b, sep) == b
  {
    SplitAround(a, b, sep);
    SplitWithoutSeparator(b, sep);
  }

  /** The first part is everything before the first separator. */
  lemma FirstPartBeforeSeparator(a: string, b: string, sep: char)
    requires sep !in a
    ensures FirstPart(a + [sep] + b, sep) == a
  {
    SplitAround(a, b, sep);
    SplitWithoutSeparator(a, sep);
  }

  // ---------------------------------------------------------------------------
  // parseInt(string) with no radix argument

  function HexValue(c: char): int {
    if IsDecDigit(c) then c as int - '0' as int
    else if 'a' <= c <= 'f' then c as int - 'a' as int + 10
    else if 'A' <= c <= 'F' then c as int - 'A' as int + 10
    else -1
  }

  predicate IsDigitIn(c: char, radix: nat) {
    0 <= HexValue(c) < radix
  }

  /** Length of the longest prefix of digits of the radix. */
  function DigitRun(s: string, radix: nat): (n: nat)
    ensures n <= |s|
    ensures forall k :: 0 <= k < n ==> IsDigitIn(s[k], radix)
    ensures n < |s| ==> !IsDigitIn(s[n], radix)
  {
    if s != [] && IsDigitIn(s[0], radix) then 1 + DigitRun(s[1..], radix) else 0
  }

  /** The value of a run of digits, most significant first. */
  function DigitsValue(ds: string, radix: nat): nat
    requires forall k :: 0 <= k < |ds| ==> IsDigitIn(ds[k], radix)
  {
    if ds == [] then 0
    else
      var prefix := ds[..|ds| - 1];
      assert forall k :: 0 <= k < |prefix| ==> prefix[k] == ds[k];
      assert IsDigitIn(ds[|ds| - 1], radix);
      var digit := HexValue(ds[|ds| - 1]);
      var high := DigitsValue(prefix, radix);
      NatProduct(high, radix);
      high * radix + digit
  }

  lemma NatProduct(a: nat, b: nat)
    ensures a * b >= 0
  {
  }

  /** The digits after the sign: a "0x"/"0X" prefix switches to radix 16, and
      the value is that of the longest run of digits that follows; `None` (NaN)
      when there is none. */
  function ParseUnsigned(u: string): Option<nat> {
    var hex := |u| >= 2 && u[0] == '0' && (u[1] == 'x' || u[1] == 'X');
    var radix := if hex then 16 else 10;
    var body := if hex then u[2..] else u;
    var n := DigitRun(body, radix);
    if n == 0 then None else Some(DigitsValue(body[..n], radix))
  }

  /** `parseInt(s)`: leading white space is skipped, then an optional sign,
      then the digits as `ParseUnsigned` reads them. */
  function ParseInt(s: string): Option<int> {
    var t := TrimStart(s);
    if t != [] && t[0] == '-' then
      match ParseUnsigned(t[1..])
      case None => None
      case Some(v) => Some(-(v as int))
    else if t != [] && t[0] == '+' then
      match ParseUnsigned(t[1..])
      case None => None
      case Some(v) => Some(v)
    else
      match ParseUnsigned(t)
      case None => None
      case Some(v) => Some(v)
  }

  /** The longest digit run of a run of digits followed by a non-digit is that run. */
  lemma DigitRunOf(ds: string, rest: string, radix: nat)
    requires forall k :: 0 <= k < |ds| ==> IsDigitIn(ds[k], radix)
    requires rest != [] ==> !IsDigitIn(rest[0], radix)
    ensures DigitRun(ds + rest, radix) == |ds|
    ensures (ds + rest)[..|ds|] == ds
  {
    var s := ds + rest;
    assert forall k :: 0 <= k < |ds| ==> s[k] == ds[k];
    assert rest != [] ==> s[|ds|] == rest[0];
  }

  lemma DigitIsNotSpaceOrSign(c: char)
    requires IsDecDigit(c)
    ensures !IsSpace(c) && c != '-' && c != '+'
  {
  }

  /** Decimal digits that do not start a "0x" prefix are read in radix 10,
      up to the first character that is not a digit. */
  lemma ParseUnsignedDecimal(ds: string, rest: string)
    requires ds != [] && forall k :: 0 <= k < |ds| ==> IsDecDigit(ds[k])
    requires rest != [] ==> !IsDecDigit(rest[0])
    requires ds == "0" && rest != [] ==> rest[0] != 'x' && rest[0] != 'X'
    ensures forall k :: 0 <= k < |ds| ==> IsDigitIn(ds[k], 10)
    ensures ParseUnsigned(ds + rest) == Some(DigitsValue(ds, 10))
  {
    var s := ds + rest;
    assert s[0] == ds[0];
    if |ds| >= 2 {
      assert s[1] == ds[1];
    } else if rest != [] {
      assert s[1] == rest[0];
    }
    assert !(|s| >= 2 && s[0] == '0' && (s[1] == 'x' || s[1] == 'X'));
    DigitRunOf(ds, rest, 10);
  }

  /** A run of decimal digits followed by anything that does not extend it
      parses to the run's decimal value. */
  lemma ParseIntDecimal(ds: string, rest: string)
    requires ds != [] && forall k :: 0 <= k < |ds| ==> IsDecDigit(ds[k])
    requires rest != [] ==> !IsDecDigit(rest[0])
    requires ds == "0" && rest != [] ==> rest[0] != 'x' && rest[0] != 'X'
    ensures forall k :: 0 <= k < |ds| ==> IsDigitIn(ds[k], 10)
    ensures ParseInt(ds + rest) == Some(DigitsValue(ds, 10))
  {
    var s := ds + rest;
    assert s[0] == ds[0];
    DigitIsNotSpaceOrSign(s[0]);
    TrimStartUnpadded(s);
    ParseUnsignedDecimal(ds, rest);
  }

  lemma TrimStartUnpadded(s: string)
    requires s != [] && !IsSpace(s[0])
    ensures TrimStart(s) == s
  {
  }

  /** With no digit where one is expected, parseInt yields NaN. */
  lemma ParseIntNaN(s: string)
    requires s == [] || (!IsSpace(s[0]) && s[0] != '-' && s[0] != '+' && !IsDecDigit(s[0]))
    ensures ParseInt(s) == None
  {
  }
}
