/** The serial port as the readers see it: the bytes still to arrive, as
    a finite sequence holding at least one newline, and the log of what
    the reader prints back. */
module Serial {

  /** Serial.print(c) of one received character, or Serial.println(text). */
  datatype Event = Echo(c: char) | Notice(text: string)

  const TooLong: string := "Too long, press enter!"

  /** Where the first newline of the input is: the last character a reader consumes. */
  function NewlineIndex(input: seq<char>): (k: nat)
    requires '\n' in input
    ensures k < |input| && input[k] == '\n'
    ensures forall j :: 0 <= j < k ==> input[j] != '\n'
  {
    if input[0] == '\n' then 0
    else
      assert '\n' in input[1..] by {
        var j :| 0 <= j < |input| && input[j] == '\n';
        assert input[1..][j - 1] == '\n';
      }
      1 + NewlineIndex(input[1..])
  }

  /** The line the user typed: everything before the first newline. */
  function Line(input: seq<char>): (line: seq<char>)
    requires '\n' in input
    ensures '\n' !in line
    ensures |line| < |input| && input[..|line| + 1] == line + ['\n']
  {
    input[..NewlineIndex(input)]
  }

  /** The log of echoing each character of `s` in order. */
  function Echoes(s: seq<char>): (log: seq<Event>)
    ensures |log| == |s|
    ensures forall i :: 0 <= i < |s| ==> log[i] == Echo(s[i])
  {
    if s == [] then [] else Echoes(s[..|s| - 1]) + [Echo(s[|s| - 1])]
  }

  lemma EchoesSnoc(s: seq<char>, i: nat)
    requires i < |s|
    ensures Echoes(s[..i + 1]) == Echoes(s[..i]) + [Echo(s[i])]
  {
    assert s[..i + 1][..i] == s[..i];
  }

  /** The characters a log shows echoed, with the printed notices left out. */
  function Echoed(log: seq<Event>): (s: seq<char>)
    ensures |s| <= |log|
  {
    if log == [] then []
    else
      var last := log[|log| - 1];
      Echoed(log[..|log| - 1]) + (if last.Echo? then [last.c] else [])
  }

  /** The notices a log holds. */
  function Notices(log: seq<Event>): (n: nat)
    ensures n <= |log|
  {
    if log == [] then 0
    else Notices(log[..|log| - 1]) + (if log[|log| - 1].Notice? then 1 else 0)
  }

  lemma {:induction false} EchoedAppend(a: seq<Event>, b: seq<Event>)
    ensures Echoed(a + b) == Echoed(a) + Echoed(b)
    ensures Notices(a + b) == Notices(a) + Notices(b)
  {
    if b != [] {
      assert (a + b)[..|a + b| - 1] == a + b[..|b| - 1];
      EchoedAppend(a, b[..|b| - 1]);
    } else {
      assert a + b == a;
    }
  }

  /** Echoing a string shows exactly that string and prints no notice. */
  lemma {:induction false} EchoesShowInput(s: seq<char>)
    ensures Echoed(Echoes(s)) == s
    ensures Notices(Echoes(s)) == 0
  {
    if s != [] {
      var p := s[..|s| - 1];
      EchoesShowInput(p);
      assert Echoes(s)[..|s| - 1] == Echoes(p);
      assert s == p + [s[|s| - 1]];
    }
  }
}
