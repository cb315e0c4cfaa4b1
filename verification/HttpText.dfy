/** The small text readers of src/dns/http_response.cpp: markers, trimming and numbers. */
module HttpText {
  import opened Bytes

  const CR: byte := 13
  const LF: byte := 10
  const COLON: byte := 58
  const SEMICOLON: byte := 59
  const COMMA: byte := 44

  /** The largest value of the 64-bit size type the numbers are read into. */
  const SIZE_MAX: nat := 0xFFFF_FFFF_FFFF_FFFF

  // ---- Markers ----------------------------------------------------------------------

  predicate CrlfAt(data: seq<byte>, i: nat) {
    i + 2 <= |data| && data[i] == CR && data[i + 1] == LF
  }

  predicate BlankLineAt(data: seq<byte>, i: nat) {
    i + 4 <= |data| && CrlfAt(data, i) && CrlfAt(data, i + 2)
  }

  /** The first line end at or behind `from`. */
  function FirstCrlf(data: seq<byte>, from: nat): (r: Option<nat>)
    ensures r.Some? ==> from <= r.value && CrlfAt(data, r.value)
    decreases |data| - from
  {
    if from >= |data| then None
    else if CrlfAt(data, from) then Some(from)
    else FirstCrlf(data, from + 1)
  }

  /** The first blank line, seen as two line ends in a row, at or behind `from`. */
  function FirstBlankLine(data: seq<byte>, from: nat): (r: Option<nat>)
    ensures r.Some? ==> from <= r.value && BlankLineAt(data, r.value)
    decreases |data| - from
  {
    if from >= |data| then None
    else if BlankLineAt(data, from) then Some(from)
    else FirstBlankLine(data, from + 1)
  }

  /** No line end starts in [from, to). */
  predicate NoCrlf(data: seq<byte>, from: nat, to: nat) {
    forall i :: from <= i < to ==> !CrlfAt(data, i)
  }

  predicate NoBlankLine(data: seq<byte>, from: nat, to: nat) {
    forall i :: from <= i < to ==> !BlankLineAt(data, i)
  }

  lemma {:induction false} FirstCrlfIsFirst(data: seq<byte>, from: nat)
    ensures FirstCrlf(data, from).Some? ==> NoCrlf(data, from, FirstCrlf(data, from).value)
    ensures FirstCrlf(data, from).None? ==> NoCrlf(data, from, |data|)
    decreases |data| - from
  {
    if from < |data| && !CrlfAt(data, from) { FirstCrlfIsFirst(data, from + 1); }
  }

  lemma {:induction false} FirstBlankLineIsFirst(data: seq<byte>, from: nat)
    ensures FirstBlankLine(data, from).Some? ==> NoBlankLine(data, from, FirstBlankLine(data, from).value)
    ensures FirstBlankLine(data, from).None? ==> NoBlankLine(data, from, |data|)
    decreases |data| - from
  {
    if from < |data| && !BlankLineAt(data, from) { FirstBlankLineIsFirst(data, from + 1); }
  }

  /** A search that resumes behind places already known to hold no line end finds the same one. */
  lemma {:induction false} CrlfResumes(data: seq<byte>, from: nat, resume: nat)
    requires from <= resume && NoCrlf(data, from, resume)
    ensures FirstCrlf(data, from) == FirstCrlf(data, resume)
    decreases resume - from
  {
    if from < resume {
      CrlfResumes(data, from + 1, resume);
    }
  }

  lemma {:induction false} BlankLineResumes(data: seq<byte>, from: nat, resume: nat)
    requires from <= resume && NoBlankLine(data, from, resume)
    ensures FirstBlankLine(data, from) == FirstBlankLine(data, resume)
    decreases resume - from
  {
    if from < resume {
      BlankLineResumes(data, from + 1, resume);
    }
  }

  method FindCrlf(data: seq<byte>, offset: nat) returns (r: Option<nat>)
    ensures r == FirstCrlf(data, offset)
  {
    var i := offset;
    while i + 1 < |data|
      invariant offset <= i && FirstCrlf(data, offset) == FirstCrlf(data, i)
      decreases |data| - i
    {
      if data[i] == CR && data[i + 1] == LF { return Some(i); }
      i := i + 1;
    }
    return None;
  }

  /** The last place that can start the four-byte marker is four bytes before the end. */
  method FindHeaderEnd(data: seq<byte>, offset: nat) returns (r: Option<nat>)
    ensures r == FirstBlankLine(data, offset)
  {
    var i := offset;
    while i + 4 <= |data|
      invariant offset <= i && FirstBlankLine(data, offset) == FirstBlankLine(data, i)
      decreases |data| - i
    {
      if data[i] == CR && data[i + 1] == LF && data[i + 2] == CR && data[i + 3] == LF { return Some(i); }
      i := i + 1;
    }
    NoBlankLineLeft(data, i);
    return None;
  }

  lemma {:induction false} NoBlankLineLeft(data: seq<byte>, from: nat)
    requires |data| < from + 4
    ensures FirstBlankLine(data, from).None?
    decreases |data| - from
  {
    if from < |data| { NoBlankLineLeft(data, from + 1); }
  }

  /** More bytes behind do not move a line end that was found. */
  lemma {:induction false} CrlfInPrefix(data: seq<byte>, more: seq<byte>, from: nat)
    requires |data| <= |more| && data == more[..|data|]
    ensures FirstCrlf(data, from).Some? ==> FirstCrlf(more, from) == FirstCrlf(data, from)
    ensures FirstCrlf(data, from).None? && FirstCrlf(more, from).Some? ==> FirstCrlf(more, from).value + 2 > |data|
    decreases |data| - from
  {
    if from < |data| && !CrlfAt(data, from) {
      if !CrlfAt(more, from) { CrlfInPrefix(data, more, from + 1); }
    }
  }

  lemma {:induction false} BlankLineInPrefix(data: seq<byte>, more: seq<byte>, from: nat)
    requires |data| <= |more| && data == more[..|data|]
    ensures FirstBlankLine(data, from).Some? ==> FirstBlankLine(more, from) == FirstBlankLine(data, from)
    ensures FirstBlankLine(data, from).None? && FirstBlankLine(more, from).Some? ==>
              FirstBlankLine(more, from).value + 4 > |data|
    decreases |data| - from
  {
    if from < |data| && !BlankLineAt(data, from) {
      if !BlankLineAt(more, from) { BlankLineInPrefix(data, more, from + 1); }
    }
  }

  // ---- Pieces of a line --------------------------------------------------------------------

  /** The first place of `c` at or behind `from`, or the length. */
  function IndexOf(s: seq<byte>, c: byte, from: nat): (i: nat)
    requires from <= |s|
    ensures from <= i <= |s|
    ensures i < |s| ==> s[i] == c
    decreases |s| - from
  {
    if from == |s| || s[from] == c then from else IndexOf(s, c, from + 1)
  }

  predicate IsBlank(c: byte) { c == 32 || c == 9 }

  predicate IsTrimmed(s: seq<byte>) {
    s == [] || (!IsBlank(s[0]) && !IsBlank(s[|s| - 1]))
  }

  function TrimLeft(s: seq<byte>): (r: seq<byte>)
    ensures |r| <= |s| && (r != [] ==> !IsBlank(r[0]))
  {
    if s != [] && IsBlank(s[0]) then TrimLeft(s[1..]) else s
  }

  function TrimRight(s: seq<byte>): (r: seq<byte>)
    ensures |r| <= |s| && r == s[..|r|] && (r != [] ==> !IsBlank(r[|r| - 1]))
  {
    if s != [] && IsBlank(s[|s| - 1]) then TrimRight(s[..|s| - 1]) else s
  }

  function Trimmed(s: seq<byte>): (r: seq<byte>)
    ensures IsTrimmed(r)
  {
    TrimRight(TrimLeft(s))
  }

  lemma BlankOnTheLeft(value: seq<byte>, begin: nat)
    requires begin < |value| && IsBlank(value[begin])
    ensures TrimLeft(value[begin..]) == TrimLeft(value[begin + 1..])
  {
    assert value[begin..][1..] == value[begin + 1..];
  }

  lemma BlankOnTheRight(value: seq<byte>, begin: nat, end: nat)
    requires begin < end <= |value| && IsBlank(value[end - 1])
    ensures TrimRight(value[begin..end]) == TrimRight(value[begin..end - 1])
  {
    assert value[begin..end][..end - begin - 1] == value[begin..end - 1];
  }

  method Trim(value: seq<byte>) returns (r: seq<byte>)
    ensures r == Trimmed(value)
  {
    var begin := 0;
    assert value[0..] == value;
    while begin < |value| && IsBlank(value[begin])
      invariant 0 <= begin <= |value| && TrimLeft(value) == TrimLeft(value[begin..])
    {
      BlankOnTheLeft(value, begin);
      begin := begin + 1;
    }
    assert TrimLeft(value) == value[begin..];
    var end := |value|;
    assert value[begin..end] == value[begin..];
    while end > begin && IsBlank(value[end - 1])
      invariant begin <= end <= |value| && Trimmed(value) == TrimRight(value[begin..end])
    {
      BlankOnTheRight(value, begin, end);
      end := end - 1;
    }
    r := value[begin..end];
  }

  // ---- Numbers -----------------------------------------------------------------------------

  function DecDigit(c: byte): Option<nat> {
    if 48 <= c <= 57 then Some((c - 48) as nat) else None
  }

  function HexDigit(c: byte): Option<nat> {
    if 48 <= c <= 57 then Some((c - 48) as nat)
    else if 97 <= c <= 102 then Some((c - 97) as nat + 10)
    else if 65 <= c <= 70 then Some((c - 65) as nat + 10)
    else None
  }

  function DigitOf(c: byte, radix: nat): (d: Option<nat>)
    requires radix == 10 || radix == 16
    ensures d.Some? ==> d.value < radix
  {
    if radix == 10 then DecDigit(c) else HexDigit(c)
  }

  predicate AllDigits(text: seq<byte>, radix: nat)
    requires radix == 10 || radix == 16
  {
    forall i :: 0 <= i < |text| ==> DigitOf(text[i], radix).Some?
  }

  /** The number a text of digits stands for, however large. */
  function NumberOf(text: seq<byte>, radix: nat): nat
    requires radix == 10 || radix == 16
    requires AllDigits(text, radix)
  {
    if text == [] then 0
    else NumberOf(text[..|text| - 1], radix) * radix + DigitOf(text[|text| - 1], radix).value
  }

  /** What a number reader accepts: a nonempty text of digits whose number fits the size type. */
  function Number(text: seq<byte>, radix: nat): Option<nat>
    requires radix == 10 || radix == 16
  {
    if text != [] && AllDigits(text, radix) && NumberOf(text, radix) <= SIZE_MAX
    then Some(NumberOf(text, radix)) else None
  }

  lemma {:induction false} NumberGrows(text: seq<byte>, n: nat, radix: nat)
    requires radix == 10 || radix == 16
    requires AllDigits(text, radix) && n <= |text|
    ensures NumberOf(text[..n], radix) <= NumberOf(text, radix)
  {
    if n < |text| {
      NumberGrows(text[..|text| - 1], n, radix);
      assert text[..|text| - 1][..n] == text[..n];
    } else {
      assert text[..n] == text;
    }
  }

  /** The overflow test before each step is exact. */
  lemma StepFits(value: nat, digit: nat, radix: nat)
    requires (radix == 10 || radix == 16) && digit < radix
    ensures value > (SIZE_MAX - digit) / radix <==> value * radix + digit > SIZE_MAX
  {
  }

  /** ParseDecimal and ParseHex, which differ in the radix and the digits they know. */
  method ParseNumber(text: seq<byte>, radix: nat) returns (r: Option<nat>)
    requires radix == 10 || radix == 16
    ensures r == Number(text, radix)
  {
    if text == [] { return None; }
    var value := 0;
    for i := 0 to |text|
      invariant AllDigits(text[..i], radix) && value == NumberOf(text[..i], radix) <= SIZE_MAX
    {
      var digit := DigitOf(text[i], radix);
      if digit.None? { return None; }
      StepFits(value, digit.value, radix);
      assert text[..i + 1][..i] == text[..i];
      if value > (SIZE_MAX - digit.value) / radix {
        if AllDigits(text, radix) { NumberGrows(text, i + 1, radix); }
        return None;
      }
      value := value * radix + digit.value;
    }
    assert text[..|text|] == text;
    return Some(value);
  }
}
