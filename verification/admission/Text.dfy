/** The two fmt verbs the denial messages use, %d and %q, and a lemma on separators. */
module Text {
  import opened Prelude

  // ---------- %d ----------

  const DIGITS := "0123456789"

  function Dec(n: nat): (s: string)
    ensures s != [] && forall c | c in s :: c in DIGITS
  {
    if n < 10 then [DIGITS[n]] else Dec(n / 10) + [DIGITS[n % 10]]
  }

  predicate IsDigit(c: char) {
    '0' <= c <= '9'
  }

  function ParseDec(s: string): nat
    requires forall c | c in s :: IsDigit(c)
  {
    if s == [] then 0
    else
      assert s[|s| - 1] in s && IsDigit(s[|s| - 1]);
      10 * ParseDec(s[..|s| - 1]) + (s[|s| - 1] as int - '0' as int)
  }

  lemma {:induction false} DecRoundTrip(n: nat)
    ensures forall c | c in Dec(n) :: IsDigit(c)
    ensures ParseDec(Dec(n)) == n
  {
    if n < 10 {
      assert Dec(n)[..0] == [];
    } else {
      DecRoundTrip(n / 10);
      assert Dec(n)[..|Dec(n)| - 1] == Dec(n / 10);
    }
  }

  /** No leading zero, so there is one numeral for each number. */
  lemma {:induction false} NoLeadingZero(n: nat)
    ensures Dec(0) == "0" && (n > 0 ==> Dec(n)[0] != '0')
    decreases n
  {
    if n < 10 {
      assert Dec(n) == [DIGITS[n]];
    } else {
      NoLeadingZero(n / 10);
      assert Dec(n)[0] == Dec(n / 10)[0];
    }
  }

  // ---------- %q ----------

  /** Which runes above Latin-1 the Unicode tables call printable. */
  type Printable = char -> bool

  /** strconv.IsPrint. */
  predicate IsPrint(c: char, t: Printable) {
    var r := c as int;
    if r <= 0xFF then 0x20 <= r < 0x7F || (0xA1 <= r && r != 0xAD) else t(c)
  }

  /** n as exactly w lower-case hexadecimal digits. */
  function Hex(n: nat, w: nat): string {
    if w == 0 then [] else Hex(n / 16, w - 1) + ["0123456789abcdef"[n % 16]]
  }

  function QuoteRune(c: char, t: Printable): string {
    var r := c as int;
    if c == '\"' || c == '\\' then ['\\', c]
    else if IsPrint(c, t) then [c]
    else if r == 7 then "\\a"
    else if r == 8 then "\\b"
    else if r == 12 then "\\f"
    else if r == 10 then "\\n"
    else if r == 13 then "\\r"
    else if r == 9 then "\\t"
    else if r == 11 then "\\v"
    else if r < 0x20 || r == 0x7F then "\\x" + Hex(r, 2)
    else if r < 0x10000 then "\\u" + Hex(r, 4)
    else "\\U" + Hex(r, 8)
  }

  function QuoteAll(s: string, t: Printable): string {
    if s == [] then [] else QuoteRune(s[0], t) + QuoteAll(s[1..], t)
  }

  function Quote(s: string, t: Printable): string {
    "\"" + QuoteAll(s, t) + "\""
  }

  lemma {:induction false} HexHasNoNewline(n: nat, w: nat)
    ensures '\n' !in Hex(n, w)
  {
    if w == 0 {
    } else {
      HexHasNoNewline(n / 16, w - 1);
    }
  }

  lemma RuneHasNoNewline(c: char, t: Printable)
    ensures '\n' !in QuoteRune(c, t)
  {
    var r := c as int;
    HexHasNoNewline(r, 2);
    HexHasNoNewline(r, 4);
    HexHasNoNewline(r, 8);
  }

  /** A quoted string is one line, whatever is in it. */
  lemma {:induction false} QuoteIsOneLine(s: string, t: Printable)
    ensures '\n' !in Quote(s, t)
  {
    if s == [] {
    } else {
      QuoteIsOneLine(s[1..], t);
      RuneHasNoNewline(s[0], t);
      assert '\n' !in QuoteAll(s, t);
    }
  }

  // ---------- reading %q back ----------

  predicate IsHexDigit(c: char) {
    '0' <= c <= '9' || 'a' <= c <= 'f'
  }

  function HexValue(c: char): nat
    requires IsHexDigit(c)
  {
    if c <= '9' then c as int - '0' as int else c as int - 'a' as int + 10
  }

  predicate IsHex(s: string) {
    forall c | c in s :: IsHexDigit(c)
  }

  function ParseHex(s: string): nat {
    if s == [] then 0
    else 16 * ParseHex(s[..|s| - 1]) + if IsHexDigit(s[|s| - 1]) then HexValue(s[|s| - 1]) else 0
  }

  /** 16 to the power of w. */
  function Power16(w: nat): nat {
    if w == 0 then 1 else 16 * Power16(w - 1)
  }

  lemma HexDigit(d: nat)
    requires d < 16
    ensures IsHexDigit("0123456789abcdef"[d]) && HexValue("0123456789abcdef"[d]) == d
  {}

  lemma {:induction false} HexRoundTrip(n: nat, w: nat)
    requires n < Power16(w)
    ensures |Hex(n, w)| == w && IsHex(Hex(n, w)) && ParseHex(Hex(n, w)) == n
    decreases w
  {
    if w == 0 {
    } else {
      HexRoundTrip(n / 16, w - 1);
      HexDigit(n % 16);
      var h := Hex(n / 16, w - 1);
      assert Hex(n, w)[..w - 1] == h;
    }
  }

  /** The code point and the length of the first rune of a quoted text. */
  function FirstRune(s: string): Option<(int, nat)> {
    if s == [] then None
    else if s[0] == '\"' then None
    else if s[0] != '\\' then Some((s[0] as int, 1))
    else if |s| < 2 then None
    else if s[1] == '\"' || s[1] == '\\' then Some((s[1] as int, 2))
    else if s[1] == 'a' then Some((7, 2))
    else if s[1] == 'b' then Some((8, 2))
    else if s[1] == 'f' then Some((12, 2))
    else if s[1] == 'n' then Some((10, 2))
    else if s[1] == 'r' then Some((13, 2))
    else if s[1] == 't' then Some((9, 2))
    else if s[1] == 'v' then Some((11, 2))
    else if s[1] == 'x' && |s| >= 4 then Some((ParseHex(s[2..4]), 4))
    else if s[1] == 'u' && |s| >= 6 then Some((ParseHex(s[2..6]), 6))
    else if s[1] == 'U' && |s| >= 10 then Some((ParseHex(s[2..10]), 10))
    else None
  }

  /** The code points between two double quotes; what follows the second one is not read. */
  function UnquoteAll(s: string): seq<int>
    decreases |s|
  {
    match FirstRune(s)
    case None => []
    case Some((r, n)) => if 0 < n <= |s| then [r] + UnquoteAll(s[n..]) else []
  }

  function Unquote(s: string): seq<int> {
    if s == [] then [] else UnquoteAll(s[1..])
  }

  function CodePoints(s: string): (r: seq<int>)
    ensures |r| == |s|
  {
    seq(|s|, i requires 0 <= i < |s| => s[i] as int)
  }

  lemma FirstOfEscaped(mark: char, w: nat, c: char, rest: string)
    requires (mark == 'x' && w == 2) || (mark == 'u' && w == 4) || (mark == 'U' && w == 8)
    requires c as int < Power16(w)
    ensures FirstRune(['\\', mark] + Hex(c as int, w) + rest) == Some((c as int, w + 2))
  {
    HexRoundTrip(c as int, w);
    var s := ['\\', mark] + Hex(c as int, w) + rest;
    assert s[2..2 + w] == Hex(c as int, w);
  }

  lemma Powers()
    ensures Power16(2) == 0x100 && Power16(4) == 0x10000 && Power16(8) == 0x1_0000_0000
  {
    assert Power16(2) == 16 * Power16(1);
    assert Power16(4) == 16 * (16 * Power16(2));
    assert Power16(6) == 16 * (16 * Power16(4));
    assert Power16(8) == 16 * (16 * Power16(6));
  }

  lemma FirstOfShort(c: char, t: Printable, rest: string)
    requires c == '\"' || c == '\\' || IsPrint(c, t) || 7 <= c as int <= 13
    ensures QuoteRune(c, t) != [] && FirstRune(QuoteRune(c, t) + rest) == Some((c as int, |QuoteRune(c, t)|))
  {}

  lemma EscapedRune(c: char, t: Printable)
    requires c != '\"' && c != '\\' && !IsPrint(c, t) && !(7 <= c as int <= 13)
    ensures var r := c as int;
            QuoteRune(c, t) == if r < 0x20 || r == 0x7F then ['\\', 'x'] + Hex(r, 2)
                               else if r < 0x10000 then ['\\', 'u'] + Hex(r, 4)
                               else ['\\', 'U'] + Hex(r, 8)
  {}

  lemma FirstOfQuoted(c: char, t: Printable, rest: string)
    ensures QuoteRune(c, t) != [] && FirstRune(QuoteRune(c, t) + rest) == Some((c as int, |QuoteRune(c, t)|))
  {
    var r := c as int;
    if c == '\"' || c == '\\' || IsPrint(c, t) || 7 <= r <= 13 {
      FirstOfShort(c, t, rest);
    } else {
      EscapedRune(c, t);
      Powers();
      var mark, w := if r < 0x20 || r == 0x7F then 'x' else if r < 0x10000 then 'u' else 'U',
                     if r < 0x20 || r == 0x7F then 2 else if r < 0x10000 then 4 else 8;
      HexRoundTrip(r, w);
      FirstOfEscaped(mark, w, c, rest);
    }
  }

  lemma UnquoteStep(q: string, rest: string, r: int)
    requires q != [] && FirstRune(q + rest) == Some((r, |q|))
    ensures UnquoteAll(q + rest) == [r] + UnquoteAll(rest)
  {
    assert (q + rest)[|q|..] == rest;
  }

  lemma CodePointsStep(s: string)
    requires s != []
    ensures CodePoints(s) == [s[0] as int] + CodePoints(s[1..])
  {}

  lemma {:induction false} UnquoteRest(s: string, t: Printable)
    ensures UnquoteAll(QuoteAll(s, t) + "\"") == CodePoints(s)
  {
    if s == [] {
      assert FirstRune("\"") == None;
    } else {
      var q, rest := QuoteRune(s[0], t), QuoteAll(s[1..], t) + "\"";
      assert QuoteAll(s, t) + "\"" == q + rest;
      FirstOfQuoted(s[0], t, rest);
      UnquoteStep(q, rest, s[0] as int);
      UnquoteRest(s[1..], t);
      CodePointsStep(s);
    }
  }

  /** A quoted string gives back every code point of the string. */
  lemma QuoteRoundTrip(s: string, t: Printable)
    ensures Unquote(Quote(s, t)) == CodePoints(s)
  {
    UnquoteRest(s, t);
    assert Quote(s, t)[1..] == QuoteAll(s, t) + "\"";
  }

  /** A rune that %q shows as it is. */
  predicate Shown(c: char, t: Printable) {
    || ' ' <= c <= '~'
    || (0xA1 <= c as int <= 0xFF && c as int != 0xAD)
    || (c as int > 0xFF && t(c))
  }

  lemma PlainRune(c: char, t: Printable)
    requires Shown(c, t) && c != '\"' && c != '\\'
    ensures QuoteRune(c, t) == [c]
  {}

  /** Printable runes other than the quote and the backslash stand for themselves. */
  lemma {:induction false} QuotePlain(s: string, t: Printable)
    requires forall c | c in s :: Shown(c, t) && c != '\"' && c != '\\'
    ensures QuoteAll(s, t) == s
  {
    if s == [] {
    } else {
      assert s[0] in s && forall c | c in s[1..] :: c in s;
      PlainRune(s[0], t);
      QuotePlain(s[1..], t);
      assert s == [s[0]] + s[1..];
    }
  }

  lemma {:induction false} HexIsShown(n: nat, w: nat, t: Printable)
    ensures forall d | d in Hex(n, w) :: Shown(d, t)
  {
    if w == 0 {
    } else {
      HexIsShown(n / 16, w - 1, t);
      HexDigit(n % 16);
    }
  }

  lemma RuneIsShown(c: char, t: Printable)
    ensures forall d | d in QuoteRune(c, t) :: Shown(d, t)
  {
    if c == '\"' || c == '\\' || IsPrint(c, t) || 7 <= c as int <= 13 {
    } else {
      EscapedRune(c, t);
      HexIsShown(c as int, 2, t);
      HexIsShown(c as int, 4, t);
      HexIsShown(c as int, 8, t);
    }
  }

  /** Everything in a quoted string is printable: all other runes are escaped. */
  lemma {:induction false} QuoteIsShown(s: string, t: Printable)
    ensures forall d | d in QuoteAll(s, t) :: Shown(d, t)
  {
    if s == [] {
    } else {
      RuneIsShown(s[0], t);
      QuoteIsShown(s[1..], t);
    }
  }

  // ---------- separators ----------

  /** A text is cut the same way at its first c however it was put together. */
  lemma CutAtFirst(a: string, x: string, b: string, y: string, c: char)
    requires c !in a && c !in b
    requires a + [c] + x == b + [c] + y
    ensures a == b && x == y
  {
    var s := a + [c] + x;
    assert s[|a|] == c && s[|b|] == c;
    assert forall k :: 0 <= k < |a| ==> s[k] == a[k] && a[k] in a;
    assert forall k :: 0 <= k < |b| ==> s[k] == b[k] && b[k] in b;
    assert |a| == |b|;
    assert s[..|a|] == a && s[..|b|] == b;
    assert s[|a| + 1..] == x && s[|b| + 1..] == y;
  }
}
