/** strtoull (lib/string.c), and the way back from printed numbers. */
module NumberParse {
  import opened Common
  import opened Arithmetic
  import opened NumberText

  /** The character at i; the terminator past the end. */
  function At(s: string, i: nat): char {
    if i < |s| then s[i] else '\0'
  }

  predicate IsSpace(c: char) {
    c == ' ' || '\t' <= c <= '\r'
  }

  function SkipSpaces(s: string, i: nat): (j: nat)
    requires i <= |s|
    ensures i <= j <= |s|
    decreases |s| - i
  {
    if i < |s| && IsSpace(s[i]) then SkipSpaces(s, i + 1) else i
  }

  /** A hexadecimal mark that a hexadecimal digit follows. */
  predicate HexMark(s: string, i: nat) {
    At(s, i) == '0' && (At(s, i + 1) == 'x' || At(s, i + 1) == 'X') && 0 <= DigitOf(At(s, i + 2)) < 16
  }

  /** The number read so far; `any` is 0 before the first digit, -1 once it is out of range. */
  datatype Scan = Scan(acc: nat, any: int, end: nat)

  predicate Overflows(acc: nat, any: int, d: nat, base: nat)
    requires base > 0
  {
    any < 0 || acc > (LIMIT - 1) / base || (acc == (LIMIT - 1) / base && d > (LIMIT - 1) % base)
  }

  function Scanned(s: string, base: nat, at: Scan): (r: Scan)
    requires 2 <= base <= 36
    ensures at.end <= r.end
    decreases |s| - at.end
  {
    var d := DigitOf(At(s, at.end));
    if at.end >= |s| || d < 0 || d >= base then at
    else if Overflows(at.acc, at.any, d, base) then Scanned(s, base, Scan(at.acc, -1, at.end + 1))
    else Scanned(s, base, Scan(at.acc * base + d, 1, at.end + 1))
  }

  datatype Error = Fine | OutOfRange | Invalid

  /** The value, where parsing stopped, and errno. */
  datatype Parse = Parse(value: nat, end: nat, error: Error)

  function Negated(n: nat): nat
    requires n < LIMIT
  {
    if n == 0 then 0 else LIMIT - n
  }

  /** Where the digits begin, and the base they are read in. */
  function SignEnd(s: string): (j: nat)
  {
    var i := SkipSpaces(s, 0);
    if At(s, i) == '-' || At(s, i) == '+' then i + 1 else i
  }

  function DigitsBegin(s: string, base: int): nat {
    var j := SignEnd(s);
    if (base == 0 || base == 16) && HexMark(s, j) then j + 2 else j
  }

  function BaseUsed(s: string, base: int): int {
    var j := SignEnd(s);
    if (base == 0 || base == 16) && HexMark(s, j) then 16 else if base == 0 then (if At(s, j) == '0' then 8 else 10)
      else base
  }

  function Parsed(s: string, base: int): Parse {
    var b := BaseUsed(s, base);
    if b < 2 || b > 36 then Parse(0, 0, Invalid)
    else
      var r := Scanned(s, b, Scan(0, 0, DigitsBegin(s, base)));
      if r.any < 0 then Parse(LIMIT - 1, r.end, OutOfRange)
      else if r.any == 0 then Parse(0, 0, Invalid)
      else Parse(if At(s, SkipSpaces(s, 0)) == '-' then Negated(r.acc % LIMIT) else r.acc, r.end, Fine)
  }

  /** The overflow test of a digit is exact. */
  lemma OverflowsIff(acc: nat, d: nat, base: nat)
    requires base > 0 && d < base
    ensures Overflows(acc, 0, d, base) <==> acc * base + d >= LIMIT
  {
    var q, r := Split(LIMIT - 1, base);
    if acc > q {
      MulStep(base, q, acc);
    } else if acc < q {
      MulStep(base, acc, q);
    }
  }

  /** The values of the digits from i on, up to the first character that is no digit of the base. */
  function DigitRun(s: string, base: nat, i: nat): (ds: seq<nat>)
    ensures forall k :: 0 <= k < |ds| ==> ds[k] < base
    decreases |s| - i
  {
    var d := DigitOf(At(s, i));
    if i >= |s| || d < 0 || d >= base then [] else [d] + DigitRun(s, base, i + 1)
  }

  /** Once out of range, the scan goes on to the end of the digits. */
  lemma {:induction false} ScanStaysOut(s: string, base: nat, at: Scan)
    requires 2 <= base <= 36 && at.any < 0
    ensures
      var ds := DigitRun(s, base, at.end);
      Scanned(s, base, at) == Scan(at.acc, if ds == [] then at.any else -1, at.end + |ds|)
    decreases |s| - at.end
  {
    var d := DigitOf(At(s, at.end));
    if at.end < |s| && 0 <= d < base {
      ScanStaysOut(s, base, Scan(at.acc, -1, at.end + 1));
    }
  }

  /** The scan reads all digits; it comes to their value, or out of range if and only if that is. */
  lemma {:induction false} ScanReads(s: string, base: nat, at: Scan)
    requires 2 <= base <= 36 && at.any >= 0 && at.acc < LIMIT
    ensures
      var r, ds := Scanned(s, base, at), DigitRun(s, base, at.end);
      && r.end == at.end + |ds|
      && (if Value(at.acc, ds, base) < LIMIT then r.acc == Value(at.acc, ds, base)
          && r.any == (if ds == [] then at.any else 1)
          else r.any < 0)
    decreases |s| - at.end
  {
    var d := DigitOf(At(s, at.end));
    if at.end < |s| && 0 <= d < base {
      var rest := DigitRun(s, base, at.end + 1);
      assert ([d] + rest)[1..] == rest;
      OverflowsIff(at.acc, d, base);
      if Overflows(at.acc, at.any, d, base) {
        ScanStaysOut(s, base, Scan(at.acc, -1, at.end + 1));
        ValueGrows(at.acc * base + d, rest, base);
      } else {
        ScanReads(s, base, Scan(at.acc * base + d, 1, at.end + 1));
      }
    }
  }

  /**
   What the text says: no digits is invalid, digits out of range are ERANGE, and others their value,
   negated after a minus.
   */
  ghost predicate Reads(s: string, base: int, p: Parse) {
    var b, k := BaseUsed(s, base), DigitsBegin(s, base);
    if b < 2 || b > 36 then p == Parse(0, 0, Invalid)
    else
      var ds := DigitRun(s, b, k);
      var v := Value(0, ds, b);
      if ds == [] then p == Parse(0, 0, Invalid)
      else if v >= LIMIT then p == Parse(LIMIT - 1, k + |ds|, OutOfRange)
      else p == Parse(if At(s, SkipSpaces(s, 0)) == '-' then Negated(v) else v, k + |ds|, Fine)
  }

  lemma ParsedReads(s: string, base: int)
    ensures Reads(s, base, Parsed(s, base))
  {
    var b, k := BaseUsed(s, base), DigitsBegin(s, base);
    if 2 <= b <= 36 {
      ScanReads(s, b, Scan(0, 0, k));
    }
  }

  /** Every scan stays in range. */
  lemma {:induction false} ScanInRange(s: string, base: nat, at: Scan)
    requires 2 <= base <= 36 && at.acc < LIMIT
    ensures Scanned(s, base, at).acc < LIMIT
    decreases |s| - at.end
  {
    var d := DigitOf(At(s, at.end));
    if at.end < |s| && 0 <= d < base {
      if Overflows(at.acc, at.any, d, base) {
        ScanInRange(s, base, Scan(at.acc, -1, at.end + 1));
      } else {
        var q, r := Split(LIMIT - 1, base);
        if at.acc < q {
          MulStep(base, at.acc, q);
        }
        ScanInRange(s, base, Scan(at.acc * base + d, 1, at.end + 1));
      }
    }
  }

  // ----- the parts of a numeral

  ghost predicate Spaces(s: string) {
    forall i :: 0 <= i < |s| ==> IsSpace(s[i])
  }

  predicate IsDigit(c: char, base: nat) {
    0 <= DigitOf(c) < base
  }

  /** The characters are digits of the base with the given values. */
  ghost predicate Spells(body: string, ds: seq<nat>, base: nat) {
    |body| == |ds| && forall i :: 0 <= i < |ds| ==> ds[i] < base && DigitOf(body[i]) == ds[i]
  }

  lemma {:induction false} SkipsLead(s: string, i: nat, n: nat)
    requires i <= n <= |s| && (forall j :: i <= j < n ==> IsSpace(s[j])) && !IsSpace(At(s, n))
    ensures SkipSpaces(s, i) == n
    decreases n - i
  {
    if i < n {
      SkipsLead(s, i + 1, n);
    }
  }

  /**
   Digits are of this base when `asked` is asked for: of 16 after a hexadecimal mark; otherwise of the base asked for,
   and if that is 0, of 8 when the first digit is 0 and of 10 when it is not.  What looks like a mark is one.
   */
  ghost predicate Means(asked: int, pre: string, body: string, tail: string, base: nat) {
    var marks := asked == 0 || asked == 16;
    if pre != "" then marks && (pre == "0x" || pre == "0X") && base == 16
    else
      && (marks && body == "0" ==> !((At(tail, 0) == 'x' || At(tail, 0) == 'X') && IsDigit(At(tail, 1), 16)))
      && base == if asked != 0 then asked else if At(body, 0) == '0' then 8 else 10
  }

  /** A numeral and what follows: spaces, a sign or none, a hexadecimal mark or none, all digits that are there. */
  ghost predicate Numeral(lead: string, mark: string, pre: string, body: string, tail: string, ds: seq<nat>, base: nat,
                          asked: int) {
    && 2 <= base <= 36 && Spaces(lead) && Spells(body, ds, base) && body != "" && !IsDigit(At(tail, 0), base)
    && (mark == "" || mark == "-" || mark == "+") && Means(asked, pre, body, tail, base)
  }

  /** The character at i of a text in five parts. */
  lemma PartAt(lead: string, mark: string, pre: string, body: string, tail: string, i: nat)
    requires i < |lead + mark + pre + body + tail|
    ensures
      var a, b, c, d := |lead|, |lead| + |mark|, |lead| + |mark| + |pre|, |lead| + |mark| + |pre| + |body|;
      (lead + mark + pre + body + tail)[i] ==
        if i < a then lead[i] else if i < b then mark[i - a] else if i < c then pre[i - b]
        else if i < d then body[i - c] else tail[i - d]
  {
  }

  lemma DigitIsPlain(c: char)
    requires IsDigit(c, 36)
    ensures !IsSpace(c) && c != '-' && c != '+' && (IsDigit(c, 16) ==> c != 'x' && c != 'X')
  {
  }

  lemma LeadSkipped(lead: string, mark: string, pre: string, body: string, tail: string, ds: seq<nat>, base: nat,
                    asked: int)
    requires Numeral(lead, mark, pre, body, tail, ds, base, asked)
    ensures
      var s := lead + mark + pre + body + tail;
      && SkipSpaces(s, 0) == |lead| && SignEnd(s) == |lead| + |mark| && (At(s, |lead|) == '-' <==> mark == "-")
  {
    var s := lead + mark + pre + body + tail;
    forall i | 0 <= i < |lead| ensures IsSpace(s[i]) {
      PartAt(lead, mark, pre, body, tail, i);
    }
    PartAt(lead, mark, pre, body, tail, |lead|);
    DigitIsPlain(body[0]);
    SkipsLead(s, 0, |lead|);
  }

  /** Without a mark, the digits do not look like one. */
  lemma NoMark(lead: string, mark: string, body: string, tail: string, ds: seq<nat>, base: nat, asked: int)
    requires Numeral(lead, mark, "", body, tail, ds, base, asked) && (asked == 0 || asked == 16)
    ensures !HexMark(lead + mark + "" + body + tail, |lead| + |mark|)
  {
    var s, j := lead + mark + "" + body + tail, |lead| + |mark|;
    PartAt(lead, mark, "", body, tail, j);
    if j + 1 < |s| {
      PartAt(lead, mark, "", body, tail, j + 1);
      if |body| > 1 {
        DigitIsPlain(body[1]);
      } else {
        assert body[0] == '0' ==> body == "0";
        if j + 2 < |s| {
          PartAt(lead, mark, "", body, tail, j + 2);
        }
      }
    }
  }

  lemma MarkRead(lead: string, mark: string, pre: string, body: string, tail: string, ds: seq<nat>, base: nat,
                 asked: int)
    requires Numeral(lead, mark, pre, body, tail, ds, base, asked)
    ensures
      var s := lead + mark + pre + body + tail;
      && DigitsBegin(s, asked) == |lead| + |mark| + |pre| && BaseUsed(s, asked) == base
  {
    var j := |lead| + |mark|;
    LeadSkipped(lead, mark, pre, body, tail, ds, base, asked);
    PartAt(lead, mark, pre, body, tail, j);
    if pre != "" {
      PartAt(lead, mark, pre, body, tail, j + 1);
      PartAt(lead, mark, pre, body, tail, j + 2);
    } else if asked == 0 || asked == 16 {
      NoMark(lead, mark, body, tail, ds, base, asked);
    }
  }

  lemma {:induction false} RunOf(s: string, base: nat, i: nat, ds: seq<nat>)
    requires i + |ds| <= |s| && (forall k :: 0 <= k < |ds| ==> ds[k] < base && DigitOf(s[i + k]) == ds[k])
    requires !IsDigit(At(s, i + |ds|), base)
    ensures DigitRun(s, base, i) == ds
    decreases |ds|
  {
    if ds != [] {
      var rest := ds[1..];
      assert DigitOf(s[i + 0]) == ds[0];
      assert forall k :: 0 <= k < |rest| ==> rest[k] == ds[k + 1] && s[i + 1 + k] == s[i + (k + 1)];
      RunOf(s, base, i + 1, rest);
    }
  }

  lemma AfterParts(front: string, body: string, tail: string, i: nat)
    ensures i < |body| ==> (front + body + tail)[|front| + i] == body[i]
    ensures At(front + body + tail, |front| + |body|) == At(tail, 0)
  {
  }

  lemma NumeralRun(front: string, body: string, tail: string, ds: seq<nat>, base: nat)
    requires Spells(body, ds, base) && !IsDigit(At(tail, 0), base)
    ensures DigitRun(front + body + tail, base, |front|) == ds
  {
    var s, k := front + body + tail, |front|;
    forall i | 0 <= i < |ds| ensures ds[i] < base && DigitOf(s[k + i]) == ds[i] {
      AfterParts(front, body, tail, i);
    }
    AfterParts(front, body, tail, 0);
    RunOf(s, base, k, ds);
  }

  /** A numeral parses to its value, or to ERANGE if and only if that is out of range, and up to what follows it. */
  lemma NumeralParses(lead: string, mark: string, pre: string, body: string, tail: string, ds: seq<nat>, base: nat,
                      asked: int)
    requires Numeral(lead, mark, pre, body, tail, ds, base, asked)
    ensures
      var s, v := lead + mark + pre + body + tail, Value(0, ds, base);
      Parsed(s, asked) ==
        if v < LIMIT then Parse(if mark == "-" then Negated(v) else v, |s| - |tail|, Fine)
        else Parse(LIMIT - 1, |s| - |tail|, OutOfRange)
  {
    LeadSkipped(lead, mark, pre, body, tail, ds, base, asked);
    MarkRead(lead, mark, pre, body, tail, ds, base, asked);
    NumeralRun(lead + mark + pre, body, tail, ds, base);
    ParsedReads(lead + mark + pre + body + tail, asked);
  }

  /** With base 0, digits that do not begin with 0 are decimal. */
  lemma DecimalParses(lead: string, mark: string, body: string, tail: string, ds: seq<nat>)
    requires Spaces(lead) && (mark == "" || mark == "-" || mark == "+")
    requires Spells(body, ds, 10) && body != "" && body[0] != '0' && !IsDigit(At(tail, 0), 10)
    ensures
      var s, v := lead + mark + body + tail, Value(0, ds, 10);
      Parsed(s, 0) ==
        if v < LIMIT then Parse(if mark == "-" then Negated(v) else v, |s| - |tail|, Fine)
        else Parse(LIMIT - 1, |s| - |tail|, OutOfRange)
  {
    assert lead + mark + "" + body + tail == lead + mark + body + tail;
    NumeralParses(lead, mark, "", body, tail, ds, 10, 0);
  }

  /** With base 0, digits that begin with 0, and are no hexadecimal mark, are octal. */
  lemma OctalParses(lead: string, mark: string, body: string, tail: string, ds: seq<nat>)
    requires Spaces(lead) && (mark == "" || mark == "-" || mark == "+")
    requires Spells(body, ds, 8) && body != "" && body[0] == '0' && !IsDigit(At(tail, 0), 8)
    requires body == "0" ==> !((At(tail, 0) == 'x' || At(tail, 0) == 'X') && IsDigit(At(tail, 1), 16))
    ensures
      var s, v := lead + mark + body + tail, Value(0, ds, 8);
      Parsed(s, 0) ==
        if v < LIMIT then Parse(if mark == "-" then Negated(v) else v, |s| - |tail|, Fine)
        else Parse(LIMIT - 1, |s| - |tail|, OutOfRange)
  {
    assert lead + mark + "" + body + tail == lead + mark + body + tail;
    NumeralParses(lead, mark, "", body, tail, ds, 8, 0);
  }

  /** With base 0, as with base 16, digits after 0x or 0X are hexadecimal. */
  lemma HexParses(lead: string, mark: string, pre: string, body: string, tail: string, ds: seq<nat>, asked: int)
    requires Spaces(lead) && (mark == "" || mark == "-" || mark == "+")
    requires (pre == "0x" || pre == "0X") && (asked == 0 || asked == 16)
    requires Spells(body, ds, 16) && body != "" && !IsDigit(At(tail, 0), 16)
    ensures
      var s, v := lead + mark + pre + body + tail, Value(0, ds, 16);
      Parsed(s, asked) ==
        if v < LIMIT then Parse(if mark == "-" then Negated(v) else v, |s| - |tail|, Fine)
        else Parse(LIMIT - 1, |s| - |tail|, OutOfRange)
  {
    NumeralParses(lead, mark, pre, body, tail, ds, 16, asked);
  }

  // ----- every text

  /** The text is a numeral and what follows it. */
  ghost predicate BeginsWithNumeral(s: string, asked: int) {
    exists lead, mark, pre, body, tail, ds, base {:trigger Numeral(lead, mark, pre, body, tail, ds, base, asked)} ::
      Numeral(lead, mark, pre, body, tail, ds, base, asked) && s == lead + mark + pre + body + tail
  }

  lemma {:induction false} RunSpells(s: string, base: nat, i: nat)
    requires DigitRun(s, base, i) != []
    ensures
      var n := |DigitRun(s, base, i)|;
      i + n <= |s| && Spells(s[i..i + n], DigitRun(s, base, i), base) && !IsDigit(At(s, i + n), base)
    decreases |s| - i
  {
    var rest := DigitRun(s, base, i + 1);
    if rest != [] {
      RunSpells(s, base, i + 1);
      assert s[i..i + 1 + |rest|] == [s[i]] + s[i + 1..i + 1 + |rest|];
    }
  }

  lemma {:induction false} SkippedAreSpaces(s: string, i: nat)
    requires i <= |s|
    ensures Spaces(s[i..SkipSpaces(s, i)]) && !IsSpace(At(s, SkipSpaces(s, i)))
    decreases |s| - i
  {
    if i < |s| && IsSpace(s[i]) {
      SkippedAreSpaces(s, i + 1);
      assert s[i..SkipSpaces(s, i)] == [s[i]] + s[i + 1..SkipSpaces(s, i)];
    }
  }

  lemma TextSplits(s: string, i: nat, j: nat, k: nat, e: nat)
    requires i <= j <= k <= e <= |s|
    ensures s == s[0..i] + s[i..j] + s[j..k] + s[k..e] + s[e..]
  {
  }

  lemma TailAt(s: string, e: nat)
    requires e <= |s|
    ensures At(s[e..], 0) == At(s, e) && At(s[e..], 1) == At(s, e + 1)
  {
  }

  lemma MeansFound(s: string, asked: int, j: nat, k: nat, e: nat)
    requires j == SignEnd(s) && k == DigitsBegin(s, asked) && k < e <= |s| && BaseUsed(s, asked) >= 0
    ensures j <= k && Means(asked, s[j..k], s[k..e], s[e..], BaseUsed(s, asked))
  {
    var pre, body := s[j..k], s[k..e];
    TailAt(s, e);
    assert body[0] == s[k];
    if k == j + 2 {
      assert pre == [s[j], s[j + 1]];
      assert pre == "0x" || pre == "0X";
    } else if body == "0" {
      assert e == k + 1;
    }
  }

  lemma SignFound(s: string, i: nat, j: nat)
    requires i == SkipSpaces(s, 0) && j == SignEnd(s) <= |s|
    ensures i <= j && (s[i..j] == "" || s[i..j] == "-" || s[i..j] == "+")
  {
    if j == i + 1 {
      assert s[i..j] == [s[i]];
    }
  }

  /** The parts that strtoull finds in a text are those of a numeral. */
  lemma PartsFound(s: string, asked: int)
    requires
      var b := BaseUsed(s, asked);
      2 <= b <= 36 && DigitRun(s, b, DigitsBegin(s, asked)) != []
    ensures BeginsWithNumeral(s, asked)
  {
    var i, j, k, b := SkipSpaces(s, 0), SignEnd(s), DigitsBegin(s, asked), BaseUsed(s, asked);
    var ds := DigitRun(s, b, k);
    var e := k + |ds|;
    RunSpells(s, b, k);
    MeansFound(s, asked, j, k, e);
    SignFound(s, i, j);
    SkippedAreSpaces(s, 0);
    TextSplits(s, i, j, k, e);
    TailAt(s, e);
    var lead, mark, pre, body, tail := s[0..i], s[i..j], s[j..k], s[k..e], s[e..];
    assert Numeral(lead, mark, pre, body, tail, ds, b, asked);
  }

  /** strtoull finds a number, in range or not, exactly in the texts that begin with a numeral. */
  lemma FindsNumeralIff(s: string, asked: int)
    ensures Parsed(s, asked).error != Invalid <==> BeginsWithNumeral(s, asked)
    ensures Parsed(s, asked).error == Invalid ==> Parsed(s, asked) == Parse(0, 0, Invalid)
  {
    ParsedReads(s, asked);
    if Parsed(s, asked).error != Invalid {
      PartsFound(s, asked);
    } else if BeginsWithNumeral(s, asked) {
      var lead, mark, pre, body, tail, ds, base :|
        Numeral(lead, mark, pre, body, tail, ds, base, asked) && s == lead + mark + pre + body + tail;
      NumeralParses(lead, mark, pre, body, tail, ds, base, asked);
    }
  }

  // ----- printing and parsing

  function Zeros(n: int): (ds: seq<nat>)
    ensures forall i :: 0 <= i < |ds| ==> ds[i] == 0
  {
    if n <= 0 then [] else Zeros(n - 1) + [0]
  }

  lemma {:induction false} RepeatIs(c: char, n: int)
    ensures |Zeros(n)| == |Repeat(c, n)| && forall i :: 0 <= i < |Repeat(c, n)| ==> Repeat(c, n)[i] == c
    decreases if n > 0 then n else 0
  {
    if n > 0 {
      RepeatIs(c, n - 1);
    }
  }

  lemma ZerosSpell(n: int, base: nat)
    requires base >= 2
    ensures Spells(Repeat('0', n), Zeros(n), base)
  {
    RepeatIs('0', n);
  }

  lemma SpellsConcat(a: string, x: seq<nat>, b: string, y: seq<nat>, base: nat)
    requires Spells(a, x, base) && Spells(b, y, base)
    ensures Spells(a + b, x + y, base)
  {
  }

  lemma CharsSpell(ds: seq<nat>, base: nat, upper: bool)
    requires base <= 36 && forall i :: 0 <= i < |ds| ==> ds[i] < base
    ensures Spells(Chars(ds, upper), ds, base)
  {
    forall i | 0 <= i < |ds| ensures DigitOf(Chars(ds, upper)[i]) == ds[i] {
      DigitRoundTrips(ds[i], upper);
    }
  }

  lemma NumberHasValue(n: nat, base: nat)
    requires base >= 2
    ensures Value(0, NumberDigits(n, base), base) == n
  {
    if n == 0 {
      OneDigit(0, 0, base);
    } else {
      DigitsHaveValue(n, base);
    }
  }

  /** The zeros and digits of a printed number spell its value. */
  lemma BodySpells(zeros: seq<int>, n: nat, base: nat, upper: bool) returns (body: string, ds: seq<nat>)
    requires 2 <= base <= 16 && |zeros| == 3
    ensures
      var z := Repeat('0', zeros[0]) + Repeat('0', zeros[1]) + Repeat('0', zeros[2]);
      body == z + Chars(NumberDigits(n, base), upper)
    ensures Spells(body, ds, base) && body != "" && Value(0, ds, base) == n
  {
    var z, nd := Zeros(zeros[0]) + Zeros(zeros[1]) + Zeros(zeros[2]), NumberDigits(n, base);
    ZerosSpell(zeros[0], base);
    ZerosSpell(zeros[1], base);
    ZerosSpell(zeros[2], base);
    CharsSpell(nd, base, upper);
    var a := Repeat('0', zeros[0]) + Repeat('0', zeros[1]);
    SpellsConcat(Repeat('0', zeros[0]), Zeros(zeros[0]), Repeat('0', zeros[1]), Zeros(zeros[1]), base);
    SpellsConcat(a, Zeros(zeros[0]) + Zeros(zeros[1]), Repeat('0', zeros[2]), Zeros(zeros[2]), base);
    SpellsConcat(a + Repeat('0', zeros[2]), z, Chars(nd, upper), nd, base);
    body, ds := a + Repeat('0', zeros[2]) + Chars(nd, upper), z + nd;
    ZerosHaveNoValue(z, nd, base);
    NumberHasValue(n, base);
  }

  lemma Regrouped(l: string, sign: string, pre: string, z: string, r: string, d: string, tail: string,
                  lead: string, mark: string, hex: string, z0: string)
    requires lead + mark == l + sign && hex + z0 == pre
    ensures (l + sign + pre + z) + r + d + tail == lead + mark + hex + (z0 + z + r + d) + tail
  {
    calc {
      (l + sign + pre + z) + r + d + tail;
      (lead + mark) + (hex + z0) + z + r + d + tail;
      lead + mark + hex + (z0 + z + r + d) + tail;
    }
  }

  /** The sign of a printed number, as leading space or as mark. */
  lemma SignSplits(l: string, sign: string) returns (lead: string, mark: string)
    requires Spaces(l) && (sign == "" || sign == " " || sign == "-" || sign == "+")
    ensures Spaces(lead) && lead + mark == l + sign && (mark == "" || mark == "-" || mark == "+")
    ensures (mark == "-" <==> sign == "-")
  {
    if sign == " " {
      lead, mark := l + " ", "";
    } else {
      lead, mark := l, sign;
    }
  }

  /** The prefix of a printed number, as hexadecimal mark or as a leading zero. */
  lemma PrefixSplits(base: nat, f: Flags) returns (hex: string, n: int)
    ensures hex + Repeat('0', n) == PrefixOf(base, f) && (hex == "" || (base == 16 && (hex == "0x" || hex == "0X")))
  {
    if PrefixOf(base, f) == "0" {
      hex, n := "", 1;
      assert Repeat('0', 0) == "" && Repeat('0', 1) == "0";
    } else {
      hex, n := PrefixOf(base, f), 0;
    }
  }

  /** The spaces behind a number that is printed to the left. */
  function Trailing(w: int, f: Flags): string {
    if f.left then Repeat(' ', w) else ""
  }

  /** A numeral that spaces follow, read in its own base. */
  lemma SpacedParses(lead: string, mark: string, pre: string, body: string, tail: string, ds: seq<nat>, base: nat)
    requires 2 <= base <= 16 && Spaces(lead) && Spaces(tail) && Spells(body, ds, base) && body != ""
    requires (mark == "" || mark == "-" || mark == "+") && (pre == "" || (base == 16 && (pre == "0x" || pre == "0X")))
    requires Value(0, ds, base) < LIMIT
    ensures
      var s, v := lead + mark + pre + body + tail, Value(0, ds, base);
      Parsed(s, base) == Parse(if mark == "-" then Negated(v) else v, |s| - |tail|, Fine)
  {
    assert At(tail, 0) == '\0' || IsSpace(At(tail, 0));
    NumeralParses(lead, mark, pre, body, tail, ds, base, base);
  }

  lemma BlanksAreSpaces(w: int)
    ensures Spaces(Repeat(' ', w))
  {
    RepeatIs(' ', w);
  }

  /** The parts written for a number parse to it, negated after a minus. */
  lemma PartsParse(n: nat, base: nat, w: int, sign: string, zeros: int, f: Flags)
    requires n < LIMIT && 2 <= base <= 16 && (sign == "" || sign == " " || sign == "-" || sign == "+")
    ensures
      var text := Parts(w, sign, PrefixOf(base, f), zeros, Chars(NumberDigits(n, base), f.large), f);
      Parsed(text, base) == Parse(if sign == "-" then Negated(n) else n, |text| - |Trailing(w, f)|, Fine)
  {
    var digits := Chars(NumberDigits(n, base), f.large);
    var l, tail := if f.left || f.zeropad then "" else Repeat(' ', w), Trailing(w, f);
    BlanksAreSpaces(w);
    var lead, mark := SignSplits(l, sign);
    var hex, n0 := PrefixSplits(base, f);
    var z := if f.zeropad && !f.left then w else 0;
    var body, ds := BodySpells([n0, z, zeros], n, base, f.large);
    Regrouped(l, sign, PrefixOf(base, f), Repeat('0', z), Repeat('0', zeros), digits, tail, lead, mark, hex,
              Repeat('0', n0));
    SpacedParses(lead, mark, hex, body, tail, ds, base);
  }

  /** From `end` on there are only spaces. */
  ghost predicate SpacesFrom(text: string, end: nat) {
    end <= |text| && forall i :: end <= i < |text| ==> text[i] == ' '
  }

  lemma TrailingSpaces(w: int, sign: string, pre: string, zeros: int, digits: string, f: Flags)
    ensures
      var text := Parts(w, sign, pre, zeros, digits, f);
      |Trailing(w, f)| <= |text| && SpacesFrom(text, |text| - |Trailing(w, f)|)
  {
    var init, tail := Front(w, sign, pre, f) + Repeat('0', zeros) + digits, Trailing(w, f);
    RepeatIs(' ', w);
    assert Parts(w, sign, pre, zeros, digits, f) == init + tail;
  }

  lemma PartsComeBack(n: nat, base: nat, w: int, sign: string, zeros: int, f: Flags)
    requires n < LIMIT && 2 <= base <= 16 && (sign == "" || sign == " " || sign == "-" || sign == "+")
    ensures
      var text := Parts(w, sign, PrefixOf(base, f), zeros, Chars(NumberDigits(n, base), f.large), f);
      var p := Parsed(text, base);
      p.value == (if sign == "-" then Negated(n) else n) && p.error == Fine && SpacesFrom(text, p.end)
  {
    PartsParse(n, base, w, sign, zeros, f);
    TrailingSpaces(w, sign, PrefixOf(base, f), zeros, Chars(NumberDigits(n, base), f.large), f);
  }

  /**
   Printing with any flags, width and precision, and parsing in the same base, gives the 64-bit
   number back and stops at trailing spaces.
   */
  lemma PrintedIsParsed(number: nat, base: nat, width: int, precision: int, f: Flags)
    requires number < LIMIT && 2 <= base <= 16
    ensures
      var text := Formatted(number, base, width, precision, f);
      var p := Parsed(text, base);
      p.value == number && p.error == Fine && SpacesFrom(text, p.end)
  {
    var n, sign := Magnitude(number, f), SignOf(number, f);
    var digits := Chars(NumberDigits(n, base), f.large);
    var p := Max(|digits|, precision);
    var w := width - |sign| - |PrefixOf(base, f)| - p;
    PartsComeBack(n, base, w, sign, p - |digits|, f);
  }

  // ----- strtoull as it runs

  /** One digit more. */
  method ScanTurn(acc: nat, any: int, d: nat, base: nat, cutoff: nat, cutlim: nat) returns (acc': nat, any': int)
    requires base > 0 && cutoff == (LIMIT - 1) / base && cutlim == (LIMIT - 1) % base
    ensures any' == if Overflows(acc, any, d, base) then -1 else 1
    ensures acc' == if Overflows(acc, any, d, base) then acc else acc * base + d
  {
    if any < 0 || acc > cutoff || (acc == cutoff && d > cutlim) {
      return acc, -1;
    }
    return acc * base + d, 1;
  }

  /** The loop over the digits. */
  method ScanFrom(s: string, base: nat, begin: nat) returns (r: Scan)
    requires 2 <= base <= 36
    ensures r == Scanned(s, base, Scan(0, 0, begin)) && r.acc < LIMIT
  {
    var cutlim, cutoff := DivMod64(LIMIT - 1, base);
    var acc: nat, any, k := 0, 0, begin;
    ScanInRange(s, base, Scan(0, 0, begin));
    while k < |s|
      invariant begin <= k && Scanned(s, base, Scan(acc, any, k)) == Scanned(s, base, Scan(0, 0, begin))
    {
      var d := DigitOf(At(s, k));
      if d < 0 || d >= base {
        break;
      }
      acc, any := ScanTurn(acc, any, d, base, cutoff, cutlim);
      k := k + 1;
    }
    r := Scan(acc, any, k);
  }

  /** strtoull on the text up to its terminator. */
  method Strtoull(s: string, base: int) returns (p: Parse)
    ensures p == Parsed(s, base) && Reads(s, base, p)
  {
    ParsedReads(s, base);
    var i := 0;
    while IsSpace(At(s, i))
      invariant i <= |s| && SkipSpaces(s, i) == SkipSpaces(s, 0)
      decreases |s| - i
    {
      i := i + 1;
    }
    var neg := At(s, i) == '-';
    if neg || At(s, i) == '+' {
      i := i + 1;
    }
    var b := base;
    var mark := (base == 0 || base == 16) && HexMark(s, i);
    if b == 0 {
      b := if At(s, i) == '0' then 8 else 10;
    }
    if mark {
      i, b := i + 2, 16;
    }
    if b < 2 || b > 36 {
      return Parse(0, 0, Invalid);
    }
    var r := ScanFrom(s, b, i);
    if r.any < 0 {
      return Parse(LIMIT - 1, r.end, OutOfRange);
    }
    if r.any == 0 {
      return Parse(0, 0, Invalid);
    }
    p := Parse(if neg then Negated(r.acc) else r.acc, r.end, Fine);
  }
}
