/**
 * The few Python text and value conversions the core relies on:
 * `str.strip()`, `int(s)` on a string, `str(n)` / f-string rendering of an
 * int, and the truthiness and rendering of the JSON values a socket.io
 * event can carry.
 */
module PyText {
  import opened Wrappers

  /** Python's `str.isspace()` for one character. */
  predicate IsSpace(c: char)
  {
    || c in {' ', '\t', '\n', '\U{B}', '\U{C}', '\r', '\U{1C}', '\U{1D}', '\U{1E}', '\U{1F}'}
    || c in {'\U{85}', '\U{A0}', '\U{1680}', '\U{2028}', '\U{2029}', '\U{202F}', '\U{205F}', '\U{3000}'}
    || '\U{2000}' <= c <= '\U{200A}'
  }

  predicate IsDigit(c: char)
  {
    '0' <= c <= '9'
  }

  function StripLeft(s: string): string
  {
    if |s| > 0 && IsSpace(s[0]) then StripLeft(s[1..]) else s
  }

  function StripRight(s: string): string
  {
    if |s| > 0 && IsSpace(s[|s| - 1]) then StripRight(s[..|s| - 1]) else s
  }

  /** `s.strip()`: drop leading and trailing whitespace. */
  function Strip(s: string): string
  {
    StripRight(StripLeft(s))
  }

  lemma {:induction false} StripLeftBlank(s: string)
    ensures StripLeft(s) == [] <==> forall k :: 0 <= k < |s| ==> IsSpace(s[k])
  {
    if |s| > 0 && IsSpace(s[0]) {
      StripLeftBlank(s[1..]);
      assert forall k :: 1 <= k < |s| ==> s[k] == s[1..][k - 1];
    }
  }

  lemma {:induction false} StripRightEmpty(s: string)
    ensures StripRight(s) == [] <==> forall k :: 0 <= k < |s| ==> IsSpace(s[k])
  {
    if |s| > 0 && IsSpace(s[|s| - 1]) {
      StripRightEmpty(s[..|s| - 1]);
    }
  }

  lemma {:induction false} StripLeftHead(s: string)
    ensures |StripLeft(s)| > 0 ==> !IsSpace(StripLeft(s)[0])
  {
    if |s| > 0 && IsSpace(s[0]) {
      StripLeftHead(s[1..]);
    }
  }

  /** A stripped text is empty exactly when the input is all whitespace, which is the
      "empty after strip()" test of the message handler. */
  lemma StripEmptyIff(s: string)
    ensures Strip(s) == [] <==> forall k :: 0 <= k < |s| ==> IsSpace(s[k])
  {
    StripLeftHead(s);
    StripRightEmpty(StripLeft(s));
    StripLeftBlank(s);
  }

  lemma {:induction false} StripRightIdle(s: string)
    requires |s| > 0 ==> !IsSpace(s[|s| - 1])
    ensures StripRight(s) == s
  {
  }

  /** Text with no whitespace at either end is left as it is. */
  lemma StripIdle(s: string)
    requires |s| > 0 ==> !IsSpace(s[0]) && !IsSpace(s[|s| - 1])
    ensures Strip(s) == s
  {
    StripRightIdle(s);
  }

  // ---------------------------------------------------------------- int(s)

  /** The digit groups Python's `int()` accepts in base 10: digits, with single
      underscores allowed between two digits. */
  predicate DigitGroups(d: string)
  {
    && |d| > 0
    && IsDigit(d[0])
    && forall i :: 0 <= i < |d| ==> IsDigit(d[i]) || (d[i] == '_' && i + 1 < |d| && IsDigit(d[i + 1]))
  }

  function DigitValue(c: char): nat
  {
    if IsDigit(c) then (c - '0') as nat else 0
  }

  /** The number written by a run of digits, underscores ignored. */
  function DigitsValue(d: string): nat
  {
    if d == [] then 0
    else if d[|d| - 1] == '_' then DigitsValue(d[..|d| - 1])
    else DigitsValue(d[..|d| - 1]) * 10 + DigitValue(d[|d| - 1])
  }

  /** `int(s)` for a string `s`: `None` where Python raises `ValueError`. */
  function ParseInt(s: string): Option<int>
  {
    var t := Strip(s);
    if |t| > 0 && (t[0] == '-' || t[0] == '+') then
      if DigitGroups(t[1..]) then
        Some(if t[0] == '-' then -(DigitsValue(t[1..]) as int) else DigitsValue(t[1..]))
      else None
    else if DigitGroups(t) then Some(DigitsValue(t))
    else None
  }

  // ---------------------------------------------------------------- str(n)

  function DigitChar(n: nat): char
    requires n < 10
  {
    ('0' as int + n) as char
  }

  function RenderNat(n: nat): string
  {
    if n < 10 then [DigitChar(n)] else RenderNat(n / 10) + [DigitChar(n % 10)]
  }

  /** `str(n)` (and `f"{n}"`) for an int. */
  function Render(n: int): string
  {
    if n < 0 then "-" + RenderNat(-n) else RenderNat(n)
  }

  lemma {:induction false} RenderNatDigits(n: nat)
    ensures |RenderNat(n)| > 0
    ensures forall i :: 0 <= i < |RenderNat(n)| ==> IsDigit(RenderNat(n)[i])
    ensures DigitsValue(RenderNat(n)) == n
  {
    if n >= 10 {
      RenderNatDigits(n / 10);
      var p := RenderNat(n / 10);
      assert RenderNat(n)[..|RenderNat(n)| - 1] == p;
    }
  }

  /** `int(str(n)) == n`: rendering an int and parsing it back gives the same int. */
  lemma ParseRender(n: int)
    ensures ParseInt(Render(n)) == Some(n)
  {
    var r := Render(n);
    RenderNatDigits(if n < 0 then -n else n);
    StripIdle(r);
    if n < 0 {
      assert r[1..] == RenderNat(-n);
    }
  }

  /** Two ints render the same only if they are equal. */
  lemma RenderInjective(a: int, b: int)
    requires Render(a) == Render(b)
    ensures a == b
  {
    ParseRender(a);
    ParseRender(b);
  }

  // ---------------------------------------------------------------- JSON values

  /** A JSON value as it arrives in a socket.io event's data dictionary. */
  datatype Json = JNull | JBool(b: bool) | JInt(i: int) | JStr(s: string)

  /** Python truthiness of a decoded JSON value. */
  predicate Truthy(j: Json)
  {
    match j
    case JNull => false
    case JBool(b) => b
    case JInt(i) => i != 0
    case JStr(s) => s != ""
  }

  /** `f"{v}"` of a decoded JSON value. */
  function PyStr(j: Json): string
  {
    match j
    case JNull => "None"
    case JBool(b) => if b then "True" else "False"
    case JInt(i) => Render(i)
    case JStr(s) => s
  }
}
