/** getIntUser(): reads one line from the serial port, keeps the first 31
    decimal digits it contains, and returns their value narrowed to
    uint16_t; a value too large for `long` ends the program. */
module GetInt {
  import opened CTypes
  import opened CString
  import opened CStdlib
  import opened Serial

  /** `len`: the size of the digit buffer, one slot of it kept for the NUL. */
  const Len: uint8 := 32

  /** The most digits the buffer stores (len - 1). */
  const MaxDigits: nat := 31

  /** How a call ends: it returns a value, or calls exit(EXIT_FAILURE). */
  datatype IntResult = Returned(value: uint16) | ExitFailure

  /** What the reader has gathered so far: the digits in its buffer and
      what it has printed. */
  datatype Reading = Reading(stored: seq<char>, log: seq<Event>)

  /** One pass of the loop on a character other than the newline: it is
      echoed; a digit is stored while fewer than 31 are, and past that only
      the "Too long" notice is printed; anything else is dropped. */
  function Step(r: Reading, c: char): Reading
  {
    var echoed := r.log + [Echo(c)];
    if !IsDigit(c) then Reading(r.stored, echoed)
    else if |r.stored| < MaxDigits then Reading(r.stored + [c], echoed)
    else Reading(r.stored, echoed + [Notice(TooLong)])
  }

  /** The loop run over `s`, from a cleared buffer and an empty log. */
  function Run(s: seq<char>): (r: Reading)
    ensures AllDigits(r.stored) && |r.stored| <= MaxDigits
  {
    if s == [] then Reading([], []) else Step(Run(s[..|s| - 1]), s[|s| - 1])
  }

  lemma RunSnoc(s: seq<char>, i: nat)
    requires i < |s|
    ensures Run(s[..i + 1]) == Step(Run(s[..i]), s[i])
  {
    assert s[..i + 1][..i] == s[..i];
  }

  /** The outcome of reading `line`: the decimal value of its stored digits
      reduced modulo 2^16, unless that value exceeds LONG_MAX, in which case
      strtol reports a range error and the program exits. */
  function IntOutcome(line: seq<char>, longMax: nat): (r: IntResult)
    ensures r.ExitFailure? <==> Decimal(Run(line).stored) > longMax
    ensures r.Returned? ==> (r.value as int - Decimal(Run(line).stored)) % 0x1_0000 == 0
  {
    var v := Decimal(Run(line).stored);
    if v > longMax then ExitFailure else Returned(ToUint16(v))
  }

  // ---------------------------------------------------------------------
  // What the loop keeps and prints, against an independent definition
  // ---------------------------------------------------------------------

  /** The digits of `s`, in order, with every other character dropped. */
  function Digits(s: seq<char>): (d: seq<char>)
    ensures AllDigits(d) && |d| <= |s|
  {
    if s == [] then []
    else
      var c := s[|s| - 1];
      Digits(s[..|s| - 1]) + (if IsDigit(c) then [c] else [])
  }

  lemma {:induction false} DigitsAppend(a: seq<char>, b: seq<char>)
    ensures Digits(a + b) == Digits(a) + Digits(b)
  {
    if b == [] {
      assert a + b == a;
    } else {
      var p := b[..|b| - 1];
      assert (a + b)[..|a + b| - 1] == a + p;
      DigitsAppend(a, p);
    }
  }

  /** The buffer ends up holding the first 31 digits of the line, in the
      order they arrived, and nothing else. */
  lemma {:induction false} RunKeepsFirstDigits(s: seq<char>)
    ensures Run(s).stored == Digits(s)[..Min(|Digits(s)|, MaxDigits)]
  {
    if s != [] {
      RunKeepsFirstDigits(s[..|s| - 1]);
    }
  }

  /** One pass echoes its character and prints at most one notice. */
  lemma StepLog(r: Reading, c: char)
    ensures Echoed(Step(r, c).log) == Echoed(r.log) + [c]
    ensures Notices(Step(r, c).log) ==
      Notices(r.log) + if IsDigit(c) && |r.stored| >= MaxDigits then 1 else 0
  {
    var extra := if IsDigit(c) && |r.stored| >= MaxDigits then [Notice(TooLong)] else [];
    assert Step(r, c).log == r.log + ([Echo(c)] + extra);
    EchoedAppend(r.log, [Echo(c)] + extra);
    EchoedAppend([Echo(c)], extra);
    assert [Echo(c)][..0] == [] && [Notice(TooLong)][..0] == [];
  }

  /** Every character read is echoed in order, and the "Too long" notice is
      printed once for each digit beyond the 31st. */
  lemma {:induction false} RunLogShape(s: seq<char>)
    ensures Echoed(Run(s).log) == s
    ensures Notices(Run(s).log) == |Digits(s)| - |Run(s).stored|
  {
    if s != [] {
      var p, c := s[..|s| - 1], s[|s| - 1];
      RunLogShape(p);
      StepLog(Run(p), c);
      assert s == p + [c];
    }
  }

  // ---------------------------------------------------------------------
  // Properties of the value returned
  // ---------------------------------------------------------------------

  /** Characters other than digits (and the newline) make no difference. */
  lemma NonDigitIgnored(a: seq<char>, c: char, b: seq<char>, longMax: nat)
    requires !IsDigit(c)
    ensures Run(a + [c] + b).stored == Run(a + b).stored
    ensures IntOutcome(a + [c] + b, longMax) == IntOutcome(a + b, longMax)
  {
    DigitsAppend(a, [c]);
    DigitsAppend(a + [c], b);
    DigitsAppend(a, b);
    assert Digits([c]) == [] by {
      assert [c][..0] == [];
    }
    assert Digits(a + [c]) == Digits(a);
    RunKeepsFirstDigits(a + [c] + b);
    RunKeepsFirstDigits(a + b);
  }

  /** Once 31 digits are stored, whatever else is typed on the line does
      not change the value. */
  lemma ExtraDigitsIgnored(line: seq<char>, extra: seq<char>, longMax: nat)
    requires |Digits(line)| >= MaxDigits
    ensures Run(line + extra).stored == Run(line).stored
    ensures IntOutcome(line + extra, longMax) == IntOutcome(line, longMax)
  {
    DigitsAppend(line, extra);
    RunKeepsFirstDigits(line + extra);
    RunKeepsFirstDigits(line);
    assert (Digits(line) + Digits(extra))[..MaxDigits] == Digits(line)[..MaxDigits];
  }

  /** A line without a digit reads as 0. */
  lemma {:induction false} NoDigitsYieldZero(line: seq<char>, longMax: nat)
    requires forall i :: 0 <= i < |line| ==> !IsDigit(line[i])
    ensures Digits(line) == []
    ensures IntOutcome(line, longMax) == Returned(0)
  {
    if line != [] {
      NoDigitsYieldZero(line[..|line| - 1], longMax);
    }
    RunKeepsFirstDigits(line);
  }

  /** An answer of at most nine digits never ends the program, whatever the
      width of `long`: it returns the digits' value modulo 2^16. */
  lemma ShortAnswerNeverAborts(line: seq<char>, longMax: nat)
    requires |Digits(line)| <= 9
    requires longMax >= LongMaxMinimum
    ensures IntOutcome(line, longMax) == Returned(ToUint16(Decimal(Digits(line))))
  {
    RunKeepsFirstDigits(line);
    assert Run(line).stored == Digits(line);
    Pow10Monotone(|Digits(line)|, 9);
    assert Pow10(9) == 1_000_000_000;
  }

  /** Typing a number of at most nine digits in decimal returns it modulo
      2^16: a uint16_t value comes back unchanged, and larger ones wrap
      around (70000 reads as 4464). */
  lemma TypedNumberIsRead(n: nat, longMax: nat)
    requires n < 1_000_000_000
    requires longMax >= LongMaxMinimum
    ensures IntOutcome(ToDecimal(n), longMax) == Returned(ToUint16(n))
    ensures n < 0x1_0000 ==> IntOutcome(ToDecimal(n), longMax) == Returned(n as uint16)
    ensures n == 70000 ==> IntOutcome(ToDecimal(n), longMax) == Returned(4464)
  {
    var s := ToDecimal(n);
    assert Pow10(9) == 1_000_000_000;
    ToDecimalLength(n, 9);
    DigitsOfDigits(s);
    ShortAnswerNeverAborts(s, longMax);
  }

  lemma {:induction false} ToDecimalLength(n: nat, k: nat)
    requires 1 <= k && n < Pow10(k)
    ensures |ToDecimal(n)| <= k
  {
    if n >= 10 {
      ToDecimalLength(n / 10, k - 1);
    }
  }

  lemma {:induction false} DigitsOfDigits(s: seq<char>)
    requires AllDigits(s)
    ensures Digits(s) == s
  {
    if s != [] {
      DigitsOfDigits(s[..|s| - 1]);
    }
  }

  /** At the newline the buffer holds the stored digits followed by NULs,
      so strtol reads exactly the stored digits. */
  lemma BufferHoldsStored(buf: seq<char>, ind: nat, stored: seq<char>)
    requires AllDigits(stored)
    requires ind < |buf| && buf[..ind] == stored
    requires forall k :: ind <= k < |buf| ==> buf[k] == '\0'
    ensures CStr(buf) == stored
    ensures LeadingDigits(CStr(buf)) == stored
  {
    assert '\0' !in stored by {
      forall j | 0 <= j < |stored| ensures stored[j] != '\0' {
        assert IsDigit(stored[j]);
      }
    }
    assert buf == buf[..ind] + buf[ind..];
    CStrTerminated(buf[..ind], buf[ind..]);
    LeadingDigitsOfDigits(stored);
  }

  /** strtol's answer on the buffer decides the outcome. */
  lemma ConversionIsOutcome(parsed: seq<char>, line: seq<char>, longMax: nat)
    requires LeadingDigits(parsed) == Run(line).stored
    ensures IntOutcome(line, longMax) ==
      var conversion := Strtol(parsed, longMax);
      if conversion.rangeError then ExitFailure else Returned(ToUint16(conversion.value))
  {
  }

  /** What getIntUser does on reading the newline: strtol converts the
      buffer, the result is narrowed to uint16_t, and unless errno was set
      the buffer is cleared. `parsed` is the string strtol reads. */
  method AtNewline(buf: array<char>, ind: uint8, longMax: nat, ghost line: seq<char>)
    returns (parsed: seq<char>, result: IntResult)
    requires buf.Length == Len as int && ind < Len
    requires buf[..ind] == Run(line).stored
    requires forall k :: ind as int <= k < Len as int ==> buf[k] == '\0'
    modifies buf
    ensures parsed == Run(line).stored
    ensures result == IntOutcome(line, longMax)
    ensures result.Returned? ==> forall k :: 0 <= k < Len as int ==> buf[k] == '\0'
    ensures result.ExitFailure? ==> buf[..] == old(buf[..])
  {
    BufferHoldsStored(buf[..], ind as int, Run(line).stored);
    parsed := CStr(buf[..]);
    var conversion := Strtol(parsed, longMax);
    ConversionIsOutcome(parsed, line, longMax);
    var value := ToUint16(conversion.value);
    if !conversion.rangeError {
      forall k | 0 <= k < buf.Length {
        buf[k] := '\0';
      }
      result := Returned(value);
    } else {
      result := ExitFailure;
    }
  }

  /** The reader itself. `input` is what arrives on the serial port,
      `longMax` the platform's LONG_MAX. Besides the outcome it reports how
      many characters it consumed, what it printed, the string it handed to
      strtol, and the digit buffer and index as they are at `return`. */
  method GetIntUser(input: seq<char>, longMax: nat)
    returns (result: IntResult, consumed: nat, log: seq<Event>, parsed: seq<char>,
             finalBuf: seq<char>, finalInd: uint8)
    requires '\n' in input
    requires longMax >= LongMaxMinimum
    ensures consumed == |Line(input)| + 1
    ensures log == Run(Line(input)).log + [Echo('\n')]
    ensures parsed == Run(Line(input)).stored
    ensures result == IntOutcome(Line(input), longMax)
    ensures result.Returned? ==>
      finalInd == 0 && |finalBuf| == Len as int && forall k :: 0 <= k < |finalBuf| ==> finalBuf[k] == '\0'
  {
    ghost var line := Line(input);
    ghost var stored: seq<char> := [];
    var buf := new char[Len](_ => '\0');
    var ind: uint8 := 0;
    var check := false;
    var i := 0;
    log, parsed := [], [];
    // while (!end): setting `end` on the newline is the `break` below
    while true
      invariant i <= |line|
      invariant Reading(stored, log) == Run(line[..i]) && ind as int == |stored|
      invariant forall k :: 0 <= k < ind as int ==> buf[k] == stored[k]
      invariant forall k :: ind as int <= k < Len as int ==> buf[k] == '\0'
      decreases |line| - i
    {
      assert i < |line| ==> input[i] == line[i] && line[i] != '\n';
      var c := input[i];
      i := i + 1;
      log := log + [Echo(c)];
      check := IsDigit(c);
      if c == '\n' {
        assert line[..i - 1] == line;
        assert buf[..ind] == stored;
        parsed, result := AtNewline(buf, ind, longMax, line);
        if result.ExitFailure? {
          consumed, finalBuf, finalInd := i, buf[..], ind;
          return;
        }
        ind := 0;
        break;
      } else {
        RunSnoc(line, i - 1);
        if check {
          if ind < Len - 1 {
            buf[ind] := c;
            ind := ind + 1;
            stored := stored + [c];
          } else {
            log := log + [Notice(TooLong)];
          }
        }
      }
    }
    consumed, finalBuf, finalInd := i, buf[..], ind;
  }
}
