/** getStringUser(size, &tam): reads one line from the serial port into a
    buffer of `size` characters and hands it back in a block taken from the
    heap, reporting a length (or a failure code) through `tam`. Modelled as
    written, with the corrected reader beside it. */
module GetString {
  import opened CTypes
  import opened CString
  import opened Serial

  // ---------------------------------------------------------------------
  // The reader as written
  // ---------------------------------------------------------------------

  /** The C string a caller finds at `str` after a successful call on a
      non-empty line: the block has exactly as many bytes as the line has
      characters, so strlcpy fits one character fewer, then the NUL. */
  function CopiedText(line: seq<char>): (t: seq<char>)
    requires |line| > 0
    ensures t <= line && |t| < |line|
  {
    CStr(line)[..Min(StrLen(line), |line| - 1)]
  }

  /** What getStringUser does on reading the newline. `tam` characters are
      in `buf` (the line), followed by a NUL. pvPortMalloc(tam) succeeds when
      `allocOk`; its bytes are whatever the heap held. */
  method CopyOut(buf: array<char>, tam: uint8, allocOk: bool, ghost line: seq<char>)
    returns (str: Option<seq<char>>, tamOut: uint8)
    requires tam as int == |line| && tam as int < buf.Length < 0x100
    requires forall k :: 0 <= k < tam as int ==> buf[k] == line[k]
    requires buf[tam] == '\0'
    ensures str.None? <==> !allocOk
    ensures tamOut == 255 <==> !allocOk
    ensures allocOk ==> |str.value| == |line| && tamOut as int == StrLen(line)
    ensures allocOk && |line| > 0 ==> CStr(str.value) == CopiedText(line)
  {
    assert buf[..tam] == line;
    assert buf[..] == line + buf[tam..];
    assert StrLen(buf[..]) == StrLen(line) && CStr(buf[..]) == CStr(line) by {
      StrLenOfTerminated(line, buf[tam..]);
    }
    if !allocOk {
      str := None;
      tamOut := ToUint8(-1);
    } else {
      var block := new char[tam];
      var copy := Strlcpy(block[..], buf[..], tam as nat);
      tamOut := ToUint8(copy.1);
      if tamOut as int == -1 {
        tamOut := ToUint8(-2);
      }
      str := Some(copy.0);
    }
  }

  /** The length of a C string does not depend on what follows its NUL. */
  lemma StrLenOfTerminated(s: seq<char>, rest: seq<char>)
    requires rest != [] && rest[0] == '\0'
    ensures StrLen(s + rest) == StrLen(s) && CStr(s + rest) == CStr(s)
  {
    var t := s + rest;
    var n := StrLen(s);
    forall j | 0 <= j < n ensures t[j] != '\0' {
      assert t[j] == s[j];
    }
    assert t[n] == '\0';
    StrLenAt(t, n);
    assert t[..n] == s[..n];
  }

  /** getStringUser(size, &tam). `input` is what arrives on the serial port
      and `allocOk` whether pvPortMalloc grants the request. A line of
      `size` characters or more makes the source write past `buf` (or run
      strlen off its end), so the line must be shorter than `size`. */
  method GetStringUser(input: seq<char>, size: uint8, allocOk: bool)
    returns (str: Option<seq<char>>, tam: uint8, consumed: nat, log: seq<Event>)
    requires '\n' in input
    requires |Line(input)| < size as int
    ensures consumed == |Line(input)| + 1
    ensures log == Echoes(input[..consumed])
    ensures str.None? <==> !allocOk
    ensures tam == 255 <==> !allocOk
    ensures allocOk ==> |str.value| == |Line(input)| && tam as int == StrLen(Line(input))
    ensures allocOk && |Line(input)| > 0 ==> CStr(str.value) == CopiedText(Line(input))
  {
    ghost var line := Line(input);
    var buf := new char[size](_ => '\0');
    tam := 0;
    var i := 0;
    log := [];
    // while (!end): setting `end` on the newline is the `break` below
    while true
      invariant i <= |line| && tam as int == i
      invariant forall k :: 0 <= k < i ==> buf[k] == line[k]
      invariant forall k :: i <= k < size as int ==> buf[k] == '\0'
      invariant log == Echoes(input[..i])
      decreases |line| - i
    {
      assert i < |line| ==> input[i] == line[i] && line[i] != '\n';
      var c := input[i];
      EchoesSnoc(input, i);
      i := i + 1;
      log := log + [Echo(c)];
      if c == '\n' {
        str, tam := CopyOut(buf, tam, allocOk, line);
        break;
      } else if tam as int - 1 == size as int {
        log := log + [Notice(TooLong)];
      } else {
        buf[tam] := c;
        tam := tam + 1;
      }
    }
    consumed := i;
  }

  /** The line loses its last character: for a line without NUL characters
      the caller gets all but the last one, while `tam` reports the full
      length. The command "avg" arrives as "av". */
  lemma LastCharacterDropped(line: seq<char>)
    requires |line| > 0 && '\0' !in line
    ensures CopiedText(line) == line[..|line| - 1]
    ensures StrLen(line) == |CopiedText(line)| + 1
    ensures CopiedText("avg") == "av"
    ensures CopiedText("avg\r") == "avg"
  {
    CStrNoNul(line);
    CStrNoNul("avg");
    CStrNoNul("avg\r");
  }

  // ---------------------------------------------------------------------
  // The "Too long" guard
  // ---------------------------------------------------------------------

  /** The buffer indices the loop writes, in order, for a line of `n`
      characters when `tam` starts at `tam`, with the guard as written:
      `(*tam - 1) == size` skips the write, and `(*tam)++` wraps at 256. */
  function AsWrittenWrites(n: nat, size: uint8, tam: uint8): (w: seq<int>)
    ensures |w| <= n
  {
    if n == 0 then []
    else if tam as int - 1 == size as int then AsWrittenWrites(n - 1, size, tam)
    else [tam as int] + AsWrittenWrites(n - 1, size, ToUint8(tam as int + 1))
  }

  /** Until the guard fires the writes go to consecutive slots. */
  lemma {:induction false} AsWrittenWritesConsecutive(n: nat, size: uint8, tam: uint8)
    requires tam as int + n <= size as int + 1
    ensures |AsWrittenWrites(n, size, tam)| == n
    ensures forall j :: 0 <= j < n ==> AsWrittenWrites(n, size, tam)[j] == tam as int + j
  {
    if n > 0 {
      AsWrittenWritesConsecutive(n - 1, size, ToUint8(tam as int + 1));
    }
  }

  /** The guard fires one slot too late: a line of size+1 characters has
      its last one written to buf[size], one past the end of the buffer
      (and a line of exactly `size` leaves no room for the NUL). */
  lemma GuardFiresLate(size: uint8)
    ensures size as int in AsWrittenWrites(size as nat + 1, size, 0)
    ensures AsWrittenWrites(5, 4, 0) == [0, 1, 2, 3, 4]
  {
    AsWrittenWritesConsecutive(size as nat + 1, size, 0);
    assert AsWrittenWrites(size as nat + 1, size, 0)[size] == size as int;
    AsWrittenWritesConsecutive(5, 4, 0);
  }

  /** With `size` 255 the guard can never fire, since `*tam - 1` is at most
      254: every character is written, and after 256 of them `*tam` wraps
      to 0 and the writes start over at buf[0]. */
  lemma {:induction false} GuardDeadAtMaxSize(n: nat, tam: uint8)
    ensures |AsWrittenWrites(n, 255, tam)| == n
    ensures forall j :: 0 <= j < n ==> AsWrittenWrites(n, 255, tam)[j] == (tam as int + j) % 0x100
  {
    if n > 0 {
      var next := ToUint8(tam as int + 1);
      var rest := AsWrittenWrites(n - 1, 255, next);
      GuardDeadAtMaxSize(n - 1, next);
      var w := AsWrittenWrites(n, 255, tam);
      assert w == [tam as int] + rest;
      forall j | 1 <= j < n ensures w[j] == (tam as int + j) % 0x100 {
        assert w[j] == rest[j - 1];
        WrapStep(tam as int + 1, j - 1);
      }
    }
  }

  lemma WrapStep(t: int, j: int)
    ensures (t % 0x100 + j) % 0x100 == (t + j) % 0x100
  {
    assert t == t / 0x100 * 0x100 + t % 0x100;
  }

  /** The 257th character of a line read with `size` 255 overwrites buf[0]. */
  lemma WrapAfter256()
    ensures |AsWrittenWrites(257, 255, 0)| == 257 && AsWrittenWrites(257, 255, 0)[256] == 0
  {
    GuardDeadAtMaxSize(257, 0);
  }

  /** The buffer indices written with the guard corrected to keep a slot for
      the NUL: a character is stored only while `tam + 1 < size`. */
  function IntendedWrites(n: nat, size: uint8, tam: uint8): (w: seq<int>)
    ensures |w| <= n
  {
    if n == 0 then []
    else if tam as int + 1 >= size as int then IntendedWrites(n - 1, size, tam)
    else [tam as int] + IntendedWrites(n - 1, size, ToUint8(tam as int + 1))
  }

  /** With the corrected guard every write lands before the last slot,
      whatever the length of the line. */
  lemma {:induction false} IntendedWritesInBounds(n: nat, size: uint8, tam: uint8)
    ensures forall j :: 0 <= j < |IntendedWrites(n, size, tam)| ==>
      tam as int <= IntendedWrites(n, size, tam)[j] < size as int - 1
  {
    if n > 0 && tam as int + 1 >= size as int {
      IntendedWritesInBounds(n - 1, size, tam);
    } else if n > 0 {
      IntendedWritesInBounds(n - 1, size, ToUint8(tam as int + 1));
    }
  }

  // ---------------------------------------------------------------------
  // The reader as evidently intended
  // ---------------------------------------------------------------------

  /** The characters the corrected reader keeps: the first `cap` of them. */
  function Kept(line: seq<char>, cap: nat): (k: seq<char>)
    ensures k <= line && |k| == Min(|line|, cap)
  {
    line[..Min(|line|, cap)]
  }

  /** What the corrected reader prints while reading `s`: each character is
      echoed, followed by the "Too long" notice once `cap` are stored. */
  function KeptLog(s: seq<char>, cap: nat): (log: seq<Event>)
    ensures |log| >= |s|
  {
    if s == [] then []
    else
      var p := s[..|s| - 1];
      KeptLog(p, cap) + [Echo(s[|s| - 1])] + (if |p| >= cap then [Notice(TooLong)] else [])
  }

  lemma KeptLogSnoc(s: seq<char>, i: nat, cap: nat)
    requires i < |s|
    ensures KeptLog(s[..i + 1], cap) ==
      KeptLog(s[..i], cap) + [Echo(s[i])] + (if i >= cap then [Notice(TooLong)] else [])
  {
    assert s[..i + 1][..i] == s[..i];
  }

  /** One character's worth of the corrected reader's log. */
  lemma KeptLogLast(s: seq<char>, cap: nat)
    requires s != []
    ensures Echoed(KeptLog(s, cap)) == Echoed(KeptLog(s[..|s| - 1], cap)) + [s[|s| - 1]]
    ensures Notices(KeptLog(s, cap)) ==
      Notices(KeptLog(s[..|s| - 1], cap)) + (if |s| - 1 >= cap then 1 else 0)
  {
    var p, c := s[..|s| - 1], s[|s| - 1];
    var extra := if |p| >= cap then [Notice(TooLong)] else [];
    assert KeptLog(s, cap) == KeptLog(p, cap) + ([Echo(c)] + extra);
    EchoedAppend(KeptLog(p, cap), [Echo(c)] + extra);
    EchoedAppend([Echo(c)], extra);
    assert [Echo(c)][..0] == [] && [Notice(TooLong)][..0] == [];
  }

  /** Every character is echoed in order, and one notice is printed for each
      character past the first `cap`. */
  lemma {:induction false} KeptLogShape(s: seq<char>, cap: nat)
    ensures Echoed(KeptLog(s, cap)) == s
    ensures Notices(KeptLog(s, cap)) == |s| - Min(|s|, cap)
  {
    if s != [] {
      KeptLogShape(s[..|s| - 1], cap);
      KeptLogLast(s, cap);
      assert s == s[..|s| - 1] + [s[|s| - 1]];
    }
  }

  /** What the corrected reader does on reading the newline: it asks for
      one byte more than it stored and lets strlcpy use all of them. */
  method CopyOutIntended(buf: array<char>, tam: uint8, allocOk: bool,
                         ghost line: seq<char>, ghost cap: nat)
    returns (str: Option<seq<char>>, tamOut: uint8)
    requires tam as int == Min(|line|, cap) && tam as int < buf.Length < 0x100
    requires forall k :: 0 <= k < tam as int ==> buf[k] == line[k]
    requires buf[tam] == '\0'
    ensures str.None? <==> !allocOk
    ensures tamOut == 255 <==> !allocOk
    ensures allocOk ==>
      var kept := Kept(line, cap);
      |str.value| == |kept| + 1 && tamOut as int == StrLen(kept) && CStr(str.value) == CStr(kept)
  {
    ghost var kept := Kept(line, cap);
    assert buf[..tam] == kept;
    assert buf[..] == kept + buf[tam..];
    StrLenOfTerminated(kept, buf[tam..]);
    if !allocOk {
      str := None;
      tamOut := ToUint8(-1);
    } else {
      var block := new char[tam as int + 1];
      var copy := Strlcpy(block[..], buf[..], tam as nat + 1);
      tamOut := ToUint8(copy.1);
      str := Some(copy.0);
    }
  }

  /** One character other than the newline in the corrected reader: it is
      stored while a slot for the NUL remains, and dropped otherwise. */
  method KeepChar(buf: array<char>, tam: uint8, c: char,
                  ghost line: seq<char>, ghost i: nat, ghost cap: nat)
    returns (tamOut: uint8, stored: bool)
    requires i < |line| && line[i] == c && buf.Length == cap + 1 < 0x100
    requires tam as int == Min(i, cap)
    requires forall k :: 0 <= k < tam as int ==> buf[k] == line[k]
    requires forall k :: tam as int <= k < buf.Length ==> buf[k] == '\0'
    modifies buf
    ensures stored <==> i < cap
    ensures tamOut as int == Min(i + 1, cap)
    ensures forall k :: 0 <= k < tamOut as int ==> buf[k] == line[k]
    ensures forall k :: tamOut as int <= k < buf.Length ==> buf[k] == '\0'
  {
    tamOut, stored := tam, false;
    if tam as int + 1 < buf.Length {
      buf[tam] := c;
      tamOut, stored := tam + 1, true;
    }
  }

  /** getStringUser with both defects corrected: the guard stops storing
      while a slot for the NUL remains, and the block has room for it. Any
      line length is safe; characters past size-1 only draw the notice. */
  method GetStringUserIntended(input: seq<char>, size: uint8, allocOk: bool)
    returns (str: Option<seq<char>>, tam: uint8, consumed: nat, log: seq<Event>)
    requires '\n' in input
    requires size >= 1
    ensures consumed == |Line(input)| + 1
    ensures log == KeptLog(Line(input), size as nat - 1) + [Echo('\n')]
    ensures str.None? <==> !allocOk
    ensures tam == 255 <==> !allocOk
    ensures allocOk ==>
      var kept := Kept(Line(input), size as nat - 1);
      |str.value| == |kept| + 1 && tam as int == StrLen(kept) && CStr(str.value) == CStr(kept)
  {
    ghost var line := Line(input);
    ghost var cap := size as nat - 1;
    var buf := new char[size](_ => '\0');
    tam := 0;
    var i := 0;
    log := [];
    while true
      invariant i <= |line| && tam as int == Min(i, cap)
      invariant forall k :: 0 <= k < tam as int ==> buf[k] == line[k]
      invariant forall k :: tam as int <= k < size as int ==> buf[k] == '\0'
      invariant log == KeptLog(line[..i], cap)
      decreases |line| - i
    {
      var c := input[i];
      i := i + 1;
      log := log + [Echo(c)];
      if c == '\n' {
        assert line[..i - 1] == line;
        str, tam := CopyOutIntended(buf, tam, allocOk, line, cap);
        break;
      }
      assert c == line[i - 1];
      KeptLogSnoc(line, i - 1, cap);
      var stored;
      tam, stored := KeepChar(buf, tam, c, line, i - 1, cap);
      if !stored {
        log := log + [Notice(TooLong)];
      }
    }
    consumed := i;
  }

  /** With the corrections a line shorter than `size` and free of NUL
      characters comes back whole, NUL-terminated, with its true length. */
  lemma IntendedRoundTrip(line: seq<char>, size: uint8)
    requires |line| < size as int && '\0' !in line
    ensures Kept(line, size as nat - 1) == line
    ensures CStr(Kept(line, size as nat - 1)) == line && StrLen(line) == |line|
  {
    CStrNoNul(line);
  }
}
