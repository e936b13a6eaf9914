# Serial console readers of the FreeRTOS / ESP32 exercises

The exercises in this repository share two blocking readers that take input
typed on the Arduino serial console:

- `getIntUser()` reads one line. It echoes every character, keeps the
  first 31 decimal digits in a 32-byte buffer, and prints
  "Too long, press enter!" for each further digit. At the newline it
  converts the buffer with `strtol(buf, &ptr, 10)`. If `errno` is set, it
  reports the error and calls `exit(EXIT_FAILURE)`. Otherwise it returns
  the value narrowed to `uint16_t`.
- `getStringUser(size, &tam)` reads one line. It echoes every character,
  stores them in a `size`-byte stack buffer and counts them in `*tam`. At
  the newline it takes a block of `*tam` bytes from `pvPortMalloc` and
  copies the buffer into it with `strlcpy`. It returns the block. `*tam`
  is set to strlcpy's result, or to `(uint8_t)-1` (255) when the
  allocation fails.

The model has these parts:

- **Serial input.** It is a finite sequence of characters that holds a
  newline. The reader consumes up to and including the first newline.
- **Printed output.** It is a log of events. `Echo(c)` stands for
  `Serial.print(c)` and `Notice(text)` for `Serial.println(text)`.
- **C library.** `strlen`, `strlcpy` and `strtol` are functions on
  sequences. `uint8_t`/`uint16_t` are newtypes with explicit modular
  conversion.
- **Allocation.** The outcome of `pvPortMalloc` is a boolean parameter.
  The bytes of a fresh block are unconstrained, like uninitialised heap.

Each reader is an imperative method with the source's loop, buffer
(an `array`) and counters. It is proved against specification functions:

- `GetInt.Run` / `GetInt.IntOutcome` for the integer reader.
- `Serial.Echoes`, `CString.Strlcpy` and `GetString.CopiedText` for the
  string reader.

Lemmas then relate those functions to independent definitions, such as the
digits of a line or the echoed characters of a log.

`getStringUser` as written has two defects (see Findings). `GetString`
models it as written, on the inputs where its behaviour is defined. Beside
it, `GetStringUserIntended` is the corrected reader, with its properties
proved.

## Model

| member | source | states |
|---|---|---|
| CTypes.ToUint8 | Includes/getStringUser.cpp:27 | conversion to uint8_t is reduction modulo 256 and leaves values in range unchanged (so -1 becomes 255) |
| CTypes.ToUint16 | Includes/getIntUser.cpp:34 | the (uint16_t) cast is reduction modulo 65536 and leaves values in range unchanged |
| CString.StrLen | Includes/getStringUser.cpp:30 | strlen: the index of the first NUL, every character before it non-NUL |
| CString.CStr | Includes/getStringUser.cpp:30 | the C string a buffer holds is a NUL-free prefix of it |
| CString.Strlcpy | Includes/getStringUser.cpp:30 | strlcpy copies min(strlen(src), dsize-1) characters, NUL-terminates, leaves the rest of dst untouched and returns strlen(src); dsize 0 writes nothing |
| CStdlib.LeadingDigits | Includes/getIntUser.cpp:34 | strtol stops at the first non-digit: the result is a digit-only prefix followed by a non-digit or the end |
| CStdlib.Decimal | Includes/getIntUser.cpp:34 | the value of a digit string is below 10^length |
| CStdlib.ToDecimal | Includes/getIntUser.cpp:34 | every natural has a decimal rendering that reads back as that number, with no leading zero |
| CStdlib.Strtol | Includes/getIntUser.cpp:34-35 | strtol yields the digits' value when it fits in long; otherwise it yields LONG_MAX and sets ERANGE, and the error flag holds exactly when the value exceeds LONG_MAX |
| Serial.Line | Includes/getIntUser.cpp:22-30 | the line read is everything before the first newline and contains none |
| Serial.Echoes | Includes/getStringUser.cpp:19-20 | echoing a string logs one Echo per character, in order |
| Serial.EchoesShowInput | Includes/getStringUser.cpp:20 | the characters echoed are exactly the characters read, with no notice |
| GetInt.Run | Includes/getIntUser.cpp:22-57 | the buffer only ever holds decimal digits, at most len-1 = 31 of them |
| GetInt.IntOutcome | Includes/getIntUser.cpp:34-43 | the program exits exactly when the stored digits exceed LONG_MAX; otherwise it returns their value modulo 2^16 |
| GetInt.RunKeepsFirstDigits | Includes/getIntUser.cpp:46-52 | the buffer holds the first 31 digits of the line, in order, and nothing else |
| GetInt.RunLogShape | Includes/getIntUser.cpp:27-54 | every character is echoed in order, and one notice is printed per digit beyond the 31st |
| GetInt.NonDigitIgnored | Includes/getIntUser.cpp:28-48 | inserting a non-digit anywhere in the line changes neither the buffer nor the result |
| GetInt.ExtraDigitsIgnored | Includes/getIntUser.cpp:49-54 | once 31 digits are stored, anything further on the line leaves the result unchanged |
| GetInt.NoDigitsYieldZero | Includes/getIntUser.cpp:34-38 | a line without digits returns 0 |
| GetInt.ShortAnswerNeverAborts | Includes/getIntUser.cpp:34-43 | a line with at most nine digits never exits, on any LONG_MAX the C standard allows, and returns their value modulo 2^16 |
| GetInt.TypedNumberIsRead | Includes/getIntUser.cpp:34 | typing n (below 10^9) returns n mod 2^16: a uint16_t value unchanged, 70000 as 4464 |
| GetInt.BufferHoldsStored | Includes/getIntUser.cpp:18-34 | at the newline strtol sees exactly the stored digits, since NULs follow them |
| GetInt.AtNewline | Includes/getIntUser.cpp:30-43 | the string converted is the stored digits, and the outcome is IntOutcome. On a return the buffer is all NULs; on exit it is untouched |
| GetInt.GetIntUser | Includes/getIntUser.cpp:11-63 | consumes the line and its newline and logs Run's output plus the echoed newline. It converts the stored digits, returns or exits as IntOutcome says, and returns with ind 0 and a cleared buffer |
| GetString.CopiedText | Includes/getStringUser.cpp:25-30 | the caller's string is a proper prefix of the line |
| GetString.CopyOut | Includes/getStringUser.cpp:24-37 | on allocation failure the result is NULL and tam is 255. Otherwise the block has one byte per character of the line, tam = strlen(line) and the block reads as CopiedText |
| GetString.GetStringUser | Includes/getStringUser.cpp:6-53 | consumes the line and its newline and echoes each character. NULL is returned iff the allocation fails iff tam = 255. On success tam = strlen(line) and the string is CopiedText(line) |
| GetString.LastCharacterDropped | Includes/getStringUser.cpp:25-30 | for a NUL-free line the caller gets all but its last character while tam counts all of them ("avg" reads as "av"; "avg" sent with a CR LF ending reads as "avg") |
| GetString.AsWrittenWritesConsecutive | Includes/getStringUser.cpp:39-44 | with the guard as written, characters go to consecutive slots until tam - 1 = size |
| GetString.GuardFiresLate | Includes/getStringUser.cpp:39-44 | with the guard as written, for every size, a line of size+1 characters is written up to buf[size], past the buffer |
| GetString.GuardDeadAtMaxSize | Includes/getStringUser.cpp:39-44 | with size 255 the guard never fires: every character is written, at index tam + j modulo 256, so `*tam` wraps and writes start over at buf[0] |
| GetString.WrapAfter256 | Includes/getStringUser.cpp:42-43 | with size 255 the 257th character of a line overwrites buf[0] |
| GetString.IntendedWritesInBounds | Includes/getStringUser.cpp:39-44 | with the corrected guard every write lands below size-1, for any line length |
| GetString.Kept | Includes/getStringUser.cpp:39-44 | the corrected reader keeps a prefix of the line of length min(length of the line, size-1) |
| GetString.KeptLogShape | Includes/getStringUser.cpp:20-40 | the corrected reader echoes every character in order and prints one notice per character beyond size-1 |
| GetString.CopyOutIntended | Includes/getStringUser.cpp:24-37 | with a block of tam+1 bytes the copy reads exactly as the kept text, and tam is its strlen |
| GetString.GetStringUserIntended | Includes/getStringUser.cpp:6-53 | accepts any line. Its log is KeptLog. NULL iff allocation fails iff tam = 255. On success the string reads as the kept text and tam is its strlen |
| GetString.IntendedRoundTrip | Includes/getStringUser.cpp:6-53 | with the corrections, a NUL-free line shorter than size comes back whole with its true length |

## Left out

- Serial.available() polling: input is a finite sequence that contains a
  newline. Without a newline the source loops forever, which is not
  modelled.
- Serial.print/println: the log records events, not bytes. The line
  terminator println adds is not modelled.
- pvPortMalloc is an outcome parameter. Heap bookkeeping, the behaviour of
  a 0-byte request and freeing by the caller are not modelled.
- strtol: only the leading run of decimal digits is modelled. The buffer
  only ever holds digits, so leading blanks, signs and other bases cannot
  occur.
- LONG_MAX is a parameter, at least 2^31 - 1, because it depends on the
  platform.
- errno, fprintf(stderr, …), strerror and exit(EXIT_FAILURE) are modelled
  as the `ExitFailure` outcome. The printed message is not modelled.
- GetString.GetStringUser: requires a line shorter than `size`. Longer
  lines make the source write past `buf` or run strlen off its end, which
  is undefined behaviour (see Findings). The corrected reader has no such
  requirement.
- `char` is Dafny's `char`. Signedness and the encoding of bytes are not
  modelled; only NUL, the newline and the digits are distinguished.
- The RTOS demo programs that call these readers are not part of this
  model.

## Findings

| source | as written | input that shows it | evidently intended | confidence | as-written member | corrected member |
|---|---|---|---|---|---|---|
| Includes/getStringUser.cpp:25-30 | the block has `*tam` bytes and strlcpy is given size `*tam`, so it copies at most tam-1 characters | the line "avg" comes back as "av" (and tam is 3); with a CR LF line ending the dropped character is the CR, so "avg\r" comes back as "avg" and a caller comparing with "avg" still matches | allocate and copy `*tam + 1` bytes, so the whole line and its NUL fit; the corrected reader then returns "avg\r" on CR LF input, so callers would have to strip the CR themselves | high, not executed | GetString.LastCharacterDropped | GetString.IntendedRoundTrip |
| Includes/getStringUser.cpp:39 | the guard `(*tam-1)==size` first fires when tam = size+1, after buf[size] has been written | a line of size+1 characters writes buf[size], one past the buffer | stop storing when `*tam + 1 >= size`, keeping a slot for the NUL | high, not executed | GetString.GuardFiresLate | GetString.IntendedWritesInBounds |
