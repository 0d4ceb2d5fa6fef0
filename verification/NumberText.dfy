/** Numbers as text: their printing (lib/vsnprintf.c) and their parsing (lib/string.c). */
module NumberText {
  import opened Common
  import opened Arithmetic
  import opened Division

  const LIMIT := 0x1_0000_0000_0000_0000

  // ----- digits

  /** The d-th of "0123456789abc..." or "0123456789ABC...". */
  function DigitChar(d: nat, upper: bool): char
    requires d < 36
  {
    if d < 10 then (d + '0' as int) as char
    else if upper then (d - 10 + 'A' as int) as char
    else (d - 10 + 'a' as int) as char
  }

  /** The value of a character as a digit, -1 if it is none. */
  function DigitOf(c: char): int {
    if '0' <= c <= '9' then c as int - '0' as int
    else if 'A' <= c <= 'Z' then c as int - 'A' as int + 10
    else if 'a' <= c <= 'z' then c as int - 'a' as int + 10
    else -1
  }

  lemma DigitRoundTrips(d: nat, upper: bool)
    requires d < 36
    ensures DigitOf(DigitChar(d, upper)) == d
    ensures d < 33 ==> DigitChar(d, upper) != 'x' && DigitChar(d, upper) != 'X'
  {
  }

  /** The digits of n, the most significant first; none for zero. */
  function Digits(n: nat, base: nat): (ds: seq<nat>)
    requires base >= 2
    ensures forall i :: 0 <= i < |ds| ==> ds[i] < base
  {
    if n == 0 then [] else Digits(n / base, base) + [n % base]
  }

  function Value(acc: nat, ds: seq<nat>, base: nat): nat
    decreases |ds|
  {
    if ds == [] then acc else Value(acc * base + ds[0], ds[1..], base)
  }

  lemma {:induction false} ValueConcat(acc: nat, a: seq<nat>, b: seq<nat>, base: nat)
    ensures Value(acc, a + b, base) == Value(Value(acc, a, base), b, base)
    decreases |a|
  {
    if a == [] {
      assert a + b == b;
    } else {
      assert (a + b)[1..] == a[1..] + b;
      ValueConcat(acc * base + a[0], a[1..], b, base);
    }
  }

  lemma OneDigit(acc: nat, d: nat, base: nat)
    ensures Value(acc, [d], base) == acc * base + d
  {
    assert [d][1..] == [];
  }

  lemma LastDigit(n: nat, base: nat) returns (q: nat, r: nat)
    requires base >= 2 && n > 0
    ensures q < n && r < base && q * base + r == n && Digits(n, base) == Digits(q, base) + [r]
  {
    q, r := Split(n, base);
    DivIsSmaller(n, base, n);
  }

  lemma {:induction false} DigitsHaveValue(n: nat, base: nat)
    requires base >= 2
    ensures Value(0, Digits(n, base), base) == n
  {
    if n > 0 {
      var q, r := LastDigit(n, base);
      DigitsHaveValue(q, base);
      ValueConcat(0, Digits(q, base), [r], base);
      OneDigit(q, r, base);
    }
  }

  lemma {:induction false} ZerosHaveNoValue(zeros: seq<nat>, ds: seq<nat>, base: nat)
    requires forall i :: 0 <= i < |zeros| ==> zeros[i] == 0
    ensures Value(0, zeros + ds, base) == Value(0, ds, base)
    decreases |zeros|
  {
    if zeros == [] {
      assert zeros + ds == ds;
    } else {
      assert (zeros + ds)[1..] == zeros[1..] + ds;
      ZerosHaveNoValue(zeros[1..], ds, base);
    }
  }

  lemma {:induction false} ValueGrows(acc: nat, ds: seq<nat>, base: nat)
    requires base >= 1
    ensures Value(acc, ds, base) >= acc
    decreases |ds|
  {
    if ds != [] {
      ValueGrows(acc * base + ds[0], ds[1..], base);
      MulMonotone(acc, 1, base);
    }
  }

  /** A word of 64 bits has at most 64 digits, so they fit the buffer of 66. */
  lemma {:induction false} DigitCount(n: nat, base: nat, k: nat)
    requires base >= 2 && n < Two(k)
    ensures |Digits(n, base)| <= k
  {
    if n > 0 {
      assert k > 0;
      DivIsSmaller(n, base, Two(k - 1));
      DigitCount(n / base, base, k - 1);
    }
  }

  lemma DivIsSmaller(n: nat, base: nat, m: nat)
    requires base >= 2 && n < 2 * m
    ensures n / base < m
  {
    var q, r := Split(n, base);
    if q >= m {
      MulMonotone(base, m, q);
      MulMonotone(m, 2, base);
    }
  }

  // ----- put_number

  function NumberDigits(n: nat, base: nat): (ds: seq<nat>)
    requires base >= 2
    ensures |ds| > 0 && forall i :: 0 <= i < |ds| ==> ds[i] < base
  {
    if n == 0 then [0] else Digits(n, base)
  }

  lemma Squared(k: nat, n: nat)
    requires Two(k) == n
    ensures Two(k + k) == n * n
  {
    TwoSum(k, k);
  }

  lemma WordSize(w: nat)
    requires w == 64
    ensures Two(w) == LIMIT && Two(32) == 0x1_0000_0000
  {
    var k := w / 16;
    assert Two(k) == 16 by {
      assert Two(4) == 16;
    }
    Squared(k, 16);
    Squared(k + k, 0x100);
    Squared(4 * k, 0x1_0000);
    Squared(8 * k, 0x1_0000_0000);
  }

  lemma DigitCount64(n: nat, base: nat)
    requires base >= 2 && n < LIMIT
    ensures |Digits(n, base)| <= 64
  {
    WordSize(64);
    DigitCount(n, base, 64);
  }

  /** mod64u and div64u by a base. */
  method DivMod64(n: nat, base: nat) returns (d: nat, q: nat)
    requires n < LIMIT && 0 < base < LIMIT
    ensures d == n % base && q == n / base
  {
    var w := 64;
    WordSize(w);
    d := ModU(w, n, base);
    q := DivU(w, n, base);
  }

  function Chars(ds: seq<nat>, upper: bool): (text: string)
    requires forall i :: 0 <= i < |ds| ==> ds[i] < 36
    ensures |text| == |ds|
  {
    seq(|ds|, i requires 0 <= i < |ds| => DigitChar(ds[i], upper))
  }

  function Reversed(s: string): (r: string)
    ensures |r| == |s|
  {
    if s == [] then [] else Reversed(s[1..]) + [s[0]]
  }

  lemma {:induction false} ReversedConcat(a: string, b: string)
    ensures Reversed(a + b) == Reversed(b) + Reversed(a)
  {
    if a == [] {
      assert a + b == b;
    } else {
      assert (a + b)[1..] == a[1..] + b;
      ReversedConcat(a[1..], b);
    }
  }

  lemma {:induction false} ReversedTwice(s: string)
    ensures Reversed(Reversed(s)) == s
  {
    if s != [] {
      ReversedConcat(Reversed(s[1..]), [s[0]]);
      ReversedTwice(s[1..]);
      assert Reversed([s[0]]) == [s[0]];
    }
  }

  lemma OneMoreDigit(ds: seq<nat>, upper: bool, d: nat)
    requires d < 36 && forall i :: 0 <= i < |ds| ==> ds[i] < 36
    ensures Reversed(Chars([d] + ds, upper)) == Reversed(Chars(ds, upper)) + [DigitChar(d, upper)]
  {
    var text := Chars([d] + ds, upper);
    assert text[1..] == Chars(ds, upper) && text[0] == DigitChar(d, upper);
  }

  lemma Grouped(a: seq<nat>, d: nat, b: seq<nat>)
    ensures a + [d] + b == a + ([d] + b)
  {
  }

  lemma DigitMoved(n: nat, base: nat, done: seq<nat>, q: nat, r: nat)
    requires base >= 2 && n > 0 && q == n / base && r == n % base
    ensures Digits(n, base) + done == Digits(q, base) + ([r] + done) && q < n && r < base
  {
    DivIsSmaller(n, base, n);
    Grouped(Digits(q, base), r, done);
  }

  /** put_number: the digits from the last to the first, never more than its buffer holds. */
  method PutNumber(number: nat, base: nat, upper: bool) returns (text: string)
    requires number < LIMIT && 2 <= base <= 16
    ensures text == Reversed(Chars(NumberDigits(number, base), upper)) && |text| <= 64
  {
    DigitCount64(number, base);
    if number == 0 {
      assert Chars(NumberDigits(0, base), upper) == ['0'];
      return ['0'];
    }
    text := PutDigits(number, base, upper);
  }

  method PutDigits(number: nat, base: nat, upper: bool) returns (text: string)
    requires 0 < number < LIMIT && 2 <= base <= 16
    ensures text == Reversed(Chars(Digits(number, base), upper))
  {
    text := "";
    var n: nat := number;
    ghost var done: seq<nat> := [];
    assert Digits(number, base) == Digits(number, base) + done;
    while n != 0
      invariant n <= number && Digits(number, base) == Digits(n, base) + done
      invariant (forall i :: 0 <= i < |done| ==> done[i] < 36) && text == Reversed(Chars(done, upper))
      decreases n
    {
      var d, q := DivMod64(n, base);
      DigitMoved(n, base, done, q, d);
      OneMoreDigit(done, upper, d);
      text := text + [DigitChar(d, upper)];
      n := q;
      done := [d] + done;
    }
    assert [] + done == done;
  }

  // ----- format_number

  datatype Flags = Flags(left: bool, zeropad: bool, sign: bool, plus: bool, space: bool, prefix: bool, large: bool)

  function Repeat(c: char, n: int): (r: string)
    ensures |r| == if n > 0 then n else 0
  {
    if n <= 0 then "" else Repeat(c, n - 1) + [c]
  }

  /** The sign character, and the number it is put before. */
  function SignOf(number: nat, f: Flags): string {
    if !f.sign then "" else if number >= LIMIT / 2 then "-" else if f.plus then "+" else if f.space then " " else ""
  }

  function Magnitude(number: nat, f: Flags): nat
    requires number < LIMIT
  {
    if f.sign && number >= LIMIT / 2 then LIMIT - number else number
  }

  function PrefixOf(base: nat, f: Flags): string {
    if !f.prefix || base == 10 then "" else if base != 16 then "0" else if f.large then "0X" else "0x"
  }

  /** What format_number prints: padding, sign, prefix, zeros, digits, padding. */
  function Formatted(number: nat, base: nat, width: int, precision: int, f: Flags): string
    requires number < LIMIT && 2 <= base <= 16
  {
    var ds := Chars(NumberDigits(Magnitude(number, f), base), f.large);
    var p := Max(|ds|, precision);
    var w := width - |SignOf(number, f)| - |PrefixOf(base, f)| - p;
    Parts(w, SignOf(number, f), PrefixOf(base, f), p - |ds|, ds, f)
  }

  /** A buffer of `room` characters after the given text was written to it, and the position. */
  datatype Output = Output(text: string, pos: nat)

  function Cut(text: string, room: nat): Output {
    Output(text[..Min(|text|, room)], |text|)
  }

  /** bound_string_output: the character is dropped past the end, the position moves on. */
  function Bound(out: Output, room: nat, c: char): Output {
    Output(if out.pos < room then out.text + [c] else out.text, out.pos + 1)
  }

  lemma BoundCuts(text: string, room: nat, c: char)
    ensures Bound(Cut(text, room), room, c) == Cut(text + [c], room)
  {
    if |text| < room {
      assert text[..|text|] == text && (text + [c])[..|text| + 1] == text + [c];
    } else {
      assert (text + [c])[..room] == text[..room];
    }
  }

  /** A loop `while (--width >= 0)` that writes a character. */
  method Pad(out: Output, room: nat, c: char, width: int, ghost text: string) returns (out': Output, width': int)
    requires out == Cut(text, room)
    ensures out' == Cut(text + Repeat(c, width), room) && width' == if width >= 0 then -1 else width - 1
  {
    out', width' := out, width - 1;
    ghost var n := 0;
    assert text + Repeat(c, 0) == text;
    while width' >= 0
      invariant 0 <= n && (width >= 0 ==> n + width' == width - 1 && width' >= -1)
      invariant (width < 0 ==> width' == width - 1 && n == 0)
      invariant out' == Cut(text + Repeat(c, n), room)
    {
      BoundCuts(text + Repeat(c, n), room, c);
      assert text + Repeat(c, n + 1) == text + Repeat(c, n) + [c];
      out' := Bound(out', room, c);
      width', n := width' - 1, n + 1;
    }
    assert Repeat(c, width) == Repeat(c, n);
  }

  method PutString(out: Output, room: nat, s: string, ghost text: string) returns (out': Output)
    requires out == Cut(text, room)
    ensures out' == Cut(text + s, room)
  {
    out' := out;
    var i := 0;
    assert text + s[..0] == text;
    while i < |s|
      invariant i <= |s| && out' == Cut(text + s[..i], room)
    {
      BoundCuts(text + s[..i], room, s[i]);
      assert text + s[..i] + [s[i]] == text + s[..i + 1];
      out' := Bound(out', room, s[i]);
      i := i + 1;
    }
    assert s[..i] == s;
  }

  /** The loop that writes the buffer of digits from its end. */
  method PutReversed(out: Output, room: nat, s: string, ghost text: string) returns (out': Output)
    requires out == Cut(text, room)
    ensures out' == Cut(text + Reversed(s), room)
  {
    out' := out;
    var i: nat := |s|;
    ghost var done := "";
    assert text + "" == text && Reversed(s) == "" + Reversed(s[..i]) by {
      assert s[..i] == s;
    }
    while i > 0
      invariant i <= |s| && Reversed(s) == done + Reversed(s[..i]) && out' == Cut(text + done, room)
    {
      i := i - 1;
      BoundCuts(text + done, room, s[i]);
      LastFirst(s, i, done);
      assert text + (done + [s[i]]) == text + done + [s[i]];
      out' := Bound(out', room, s[i]);
      done := done + [s[i]];
    }
    assert done + Reversed(s[..0]) == done;
  }

  lemma LastFirst(s: string, i: nat, done: string)
    requires i < |s|
    ensures done + Reversed(s[..i + 1]) == done + [s[i]] + Reversed(s[..i])
  {
    ReversedConcat(s[..i], [s[i]]);
    assert s[..i + 1] == s[..i] + [s[i]];
    assert Reversed([s[i]]) == [s[i]];
  }

  /** Padding, sign, prefix and zero padding. */
  function Front(w: int, sign: string, pre: string, f: Flags): string {
    (if f.left || f.zeropad then "" else Repeat(' ', w)) + sign + pre +
    (if f.zeropad && !f.left then Repeat('0', w) else "")
  }

  /** The parts in the order format_number writes them. */
  function Parts(w: int, sign: string, pre: string, zeros: int, digits: string, f: Flags): string {
    Front(w, sign, pre, f) + Repeat('0', zeros) + digits + (if f.left then Repeat(' ', w) else "")
  }

  method PutFront(room: nat, width: int, sign: string, pre: string, f: Flags) returns (out: Output, w: int)
    ensures out == Cut(Front(width, sign, pre, f), room) && if f.left then w == width else w < 0
  {
    var zero := f.zeropad && !f.left;
    w := width;
    ghost var lead := "";
    out := Output("", 0);
    if !(zero || f.left) {
      out, w := Pad(out, room, ' ', w, "");
      lead := Repeat(' ', width);
      assert "" + lead == lead;
    }
    out := PutString(out, room, sign, lead);
    out := PutString(out, room, pre, lead + sign);
    if f.left {
      assert lead + sign + pre + "" == lead + sign + pre;
    } else {
      out, w := Pad(out, room, if zero then '0' else ' ', w, lead + sign + pre);
    }
  }

  /** The writing half of format_number. */
  method PutParts(room: nat, width: int, sign: string, pre: string, zeros: int, digits: string, f: Flags)
    returns (out: Output)
    ensures out == Cut(Parts(width, sign, pre, zeros, Reversed(digits), f), room)
  {
    var w, left;
    ghost var text := Front(width, sign, pre, f);
    out, w := PutFront(room, width, sign, pre, f);
    out, left := Pad(out, room, '0', zeros, text);
    out := PutReversed(out, room, digits, text + Repeat('0', zeros));
    out, w := Pad(out, room, ' ', w, text + Repeat('0', zeros) + Reversed(digits));
  }

  /** The sign, the number that is left to print, and the width that is left for it. */
  method SplitSign(number: nat, width: int, f: Flags) returns (sign: string, n: nat, w: int)
    requires number < LIMIT
    ensures sign == SignOf(number, f) && n == Magnitude(number, f) && w == width - |sign| && n < LIMIT
  {
    sign, n, w := "", number, width;
    if f.sign {
      if number >= LIMIT / 2 {
        sign, n, w := "-", LIMIT - number, w - 1;
      } else if f.plus {
        sign, w := "+", w - 1;
      } else if f.space {
        sign, w := " ", w - 1;
      }
    }
  }

  /**
   format_number on a buffer of `room` characters: what fits is written, and the position is that of
   the whole text.
   */
  method FormatNumber(room: nat, number: nat, base: nat, width: int, precision: int, f: Flags)
    returns (r: Option<Output>)
    requires number < LIMIT
    ensures r == None <==> base < 2 || base > 16
    ensures r != None ==> r == Some(Cut(Formatted(number, base, width, precision, f), room))
  {
    if base < 2 || base > 16 {
      return None;
    }
    var sign, n, w := SplitSign(number, width, f);
    var pre := PrefixOf(base, f);
    w := w - |pre|;
    var digits := PutNumber(n, base, f.large);
    ghost var ds := Chars(NumberDigits(n, base), f.large);
    ReversedTwice(ds);
    var p := Max(|digits|, precision);
    w := w - p;
    var out := PutParts(room, w, sign, pre, p - |digits|, digits, f);
    assert Formatted(number, base, width, precision, f) == Parts(w, sign, pre, p - |digits|, ds, f);
    r := Some(out);
  }

  // ----- what the width and the flags do

  /** The digits, with the zeros that the precision asks for. */
  function Body(number: nat, base: nat, precision: int, f: Flags): (b: string)
    requires number < LIMIT && 2 <= base <= 16
    ensures b != "" && |b| >= precision
  {
    var ds := Chars(NumberDigits(Magnitude(number, f), base), f.large);
    Repeat('0', Max(|ds|, precision) - |ds|) + ds
  }

  /** Padding on the right, between the prefix and the digits, or on the left. */
  function Padded(w: int, head: string, body: string, f: Flags): string {
    if f.left then head + body + Repeat(' ', w)
    else if f.zeropad then head + Repeat('0', w) + body
    else Repeat(' ', w) + (head + body)
  }

  lemma PartsPadded(w: int, sign: string, pre: string, zeros: int, digits: string, f: Flags)
    ensures Parts(w, sign, pre, zeros, digits, f) == Padded(w, sign + pre, Repeat('0', zeros) + digits, f)
  {
    var z := Repeat('0', zeros);
    if f.left {
      Joined("", sign, pre, "", z, digits);
    } else if f.zeropad {
      Joined("", sign, pre, Repeat('0', w), z, digits);
    } else {
      Joined(Repeat(' ', w), sign, pre, "", z, digits);
    }
  }

  lemma Joined(l: string, sign: string, pre: string, pad: string, z: string, digits: string)
    ensures (l + sign + pre + pad) + z + digits == l + (sign + pre) + pad + (z + digits)
    ensures (l + sign + pre + "") + z + digits == l + ((sign + pre) + (z + digits))
  {
  }

  lemma FormattedIs(number: nat, base: nat, width: int, precision: int, f: Flags)
    requires number < LIMIT && 2 <= base <= 16
    ensures
      var head, body := SignOf(number, f) + PrefixOf(base, f), Body(number, base, precision, f);
      Formatted(number, base, width, precision, f) == Padded(width - |head| - |body|, head, body, f)
  {
    var ds := Chars(NumberDigits(Magnitude(number, f), base), f.large);
    var p := Max(|ds|, precision);
    var w := width - |SignOf(number, f)| - |PrefixOf(base, f)| - p;
    PartsPadded(w, SignOf(number, f), PrefixOf(base, f), p - |ds|, ds, f);
  }

  lemma PaddedContent(w: int, head: string, body: string, f: Flags)
    ensures
      var text, content := Padded(w, head, body, f), head + body;
      && |text| == |content| + (if w > 0 then w else 0)
      && (w <= 0 ==> text == content)
      && text == if f.left then content + Repeat(' ', w)
                 else if f.zeropad then content[..|head|] + Repeat('0', w) + content[|head|..]
                 else Repeat(' ', w) + content
  {
    assert (head + body)[..|head|] == head && (head + body)[|head|..] == body;
  }

  /**
   The text is as long as the width asks for, or as what it would be without one.  The rest is filled with spaces on
   the right if that is asked for, else with zeros behind sign and prefix, else with spaces on the left.
   */
  lemma WidthPads(number: nat, base: nat, width: int, precision: int, f: Flags)
    requires number < LIMIT && 2 <= base <= 16
    ensures
      var text, content := Formatted(number, base, width, precision, f), Formatted(number, base, 0, precision, f);
      var pad, k := width - |content|, |SignOf(number, f) + PrefixOf(base, f)|;
      && |text| == Max(width, |content|) && k <= |content|
      && text == if f.left then content + Repeat(' ', pad)
                 else if f.zeropad then content[..k] + Repeat('0', pad) + content[k..]
                 else Repeat(' ', pad) + content
  {
    var head, body := SignOf(number, f) + PrefixOf(base, f), Body(number, base, precision, f);
    FormattedIs(number, base, width, precision, f);
    FormattedIs(number, base, 0, precision, f);
    PaddedContent(0 - |head| - |body|, head, body, f);
    PaddedContent(width - |head| - |body|, head, body, f);
  }

  lemma RepeatStarts(c: char, n: int)
    ensures n > 0 ==> Repeat(c, n)[0] == c
  {
  }

  lemma DigitCharIsNoSign(ds: seq<nat>, upper: bool)
    requires forall i :: 0 <= i < |ds| ==> ds[i] < 36
    ensures forall i :: 0 <= i < |ds| ==>
              Chars(ds, upper)[i] != '-' && Chars(ds, upper)[i] != '+' && Chars(ds, upper)[i] != ' '
  {
  }

  /** Which sign the number begins with. */
  lemma SignShows(number: nat, base: nat, precision: int, f: Flags)
    requires number < LIMIT && 2 <= base <= 16
    ensures
      var content, negative := Formatted(number, base, 0, precision, f), number >= LIMIT / 2;
      && content != ""
      && (content[0] == '-' <==> f.sign && negative)
      && (content[0] == '+' <==> f.sign && !negative && f.plus)
      && (content[0] == ' ' <==> f.sign && !negative && !f.plus && f.space)
  {
    var head, body := SignOf(number, f) + PrefixOf(base, f), Body(number, base, precision, f);
    var nd := NumberDigits(Magnitude(number, f), base);
    FormattedIs(number, base, 0, precision, f);
    PaddedContent(0 - |head| - |body|, head, body, f);
    DigitCharIsNoSign(nd, f.large);
    RepeatStarts('0', Max(|nd|, precision) - |nd|);
    assert (head + body)[0] == if head == "" then body[0] else head[0];
  }

  /** Without a width: the sign, the prefix, and as many digits as the number has or the precision asks for. */
  lemma ContentLength(number: nat, base: nat, precision: int, f: Flags)
    requires number < LIMIT && 2 <= base <= 16
    ensures
      var content, digits := Formatted(number, base, 0, precision, f), |NumberDigits(Magnitude(number, f), base)|;
      var sign := if f.sign && (number >= LIMIT / 2 || f.plus || f.space) then 1 else 0;
      var pre := if f.prefix && base == 16 then 2 else if f.prefix && base != 10 then 1 else 0;
      && |content| == sign + pre + Max(digits, precision)
      && (pre > 0 ==> content[sign] == '0')
      && (pre > 1 ==> content[sign + 1] == if f.large then 'X' else 'x')
  {
    var head, body := SignOf(number, f) + PrefixOf(base, f), Body(number, base, precision, f);
    FormattedIs(number, base, 0, precision, f);
    PaddedContent(0 - |head| - |body|, head, body, f);
    assert forall i :: 0 <= i < |head| ==> (head + body)[i] == head[i];
  }
}
