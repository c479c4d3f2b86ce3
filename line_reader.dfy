/** flsh_read_line: read one line from standard input into a growing heap buffer. */
module LineReader {
  import Alloc
  import opened CStrings

  /** FLSH_RL_BUFSIZE: the initial size of the line buffer and the step it grows by. */
  const RlBufSize: nat := 1024

  /** What getchar returns at end of input. */
  const EOF: int := -1
  const Newline: int := 10

  /** A value getchar can return: an unsigned byte, or EOF. */
  type Getc = c: int | -1 <= c < 256

  /** The characters that end a line: newline and end of input. */
  predicate EndsLine(c: Getc) {
    c == EOF || c == Newline
  }

  /** getchar on the stream `input` whose first `next` elements are already read. End of
      input is sticky: once the stream has run out or reached an EOF element, getchar
      answers EOF from then on and the stream does not advance. */
  function GetChar(input: seq<Getc>, next: nat): (r: (Getc, nat))
    requires next <= |input|
    ensures r.0 == EOF <==> next == |input| || input[next] == EOF
    ensures r.0 == EOF ==> r.1 == next
    ensures r.0 != EOF ==> r.0 == input[next] && r.1 == next + 1
  {
    if next < |input| && input[next] != EOF then (input[next], next + 1) else (EOF, next)
  }

  /** The line flsh_read_line returns: the characters before the first newline or EOF. */
  function Line(input: seq<Getc>): seq<char> {
    if input == [] || EndsLine(input[0]) then []
    else [input[0] as char] + Line(input[1..])
  }

  /** How many elements of the stream one call of flsh_read_line consumes: the line and
      a newline ending it, which is read but not stored. End of input is not consumed. */
  function Consumed(input: seq<Getc>): nat {
    if input == [] || input[0] == EOF then 0
    else if input[0] == Newline then 1
    else 1 + Consumed(input[1..])
  }

  /** The line is exactly the stream's prefix before its first terminator: no newline,
      no EOF, and a newline after it is consumed while end of input is not. */
  lemma {:induction false} LineIsPrefix(input: seq<Getc>)
    ensures |Line(input)| <= |input|
    ensures forall i :: 0 <= i < |Line(input)| ==>
      0 <= input[i] && input[i] != Newline && Line(input)[i] == input[i] as char
    ensures '\n' !in Line(input)
    ensures |Line(input)| < |input| ==> EndsLine(input[|Line(input)|])
    ensures Consumed(input) ==
      if |Line(input)| < |input| && input[|Line(input)|] == Newline then |Line(input)| + 1
      else |Line(input)|
  {
    if input != [] && !EndsLine(input[0]) {
      LineIsPrefix(input[1..]);
    }
  }

  /** The bytes of a string whose characters all fit in a byte. */
  predicate IsByteString(s: string) {
    forall i :: 0 <= i < |s| ==> s[i] as int < 256
  }

  function Bytes(s: string): (b: seq<Getc>)
    requires IsByteString(s)
    ensures |b| == |s|
  {
    seq(|s|, i requires 0 <= i < |s| => s[i] as int)
  }

  /** Reading back a typed line: a byte string without a newline, followed by a newline
      or EOF, is read back exactly; a newline is consumed with it, an EOF is not. */
  lemma {:induction false} ReadBackTypedLine(s: string, terminator: Getc, rest: seq<Getc>)
    requires IsByteString(s) && '\n' !in s
    requires EndsLine(terminator)
    ensures Line(Bytes(s) + [terminator] + rest) == s
    ensures Consumed(Bytes(s) + [terminator] + rest) == |s| + (if terminator == Newline then 1 else 0)
  {
    var input := Bytes(s) + [terminator] + rest;
    if s == [] {
      assert input[0] == terminator;
    } else {
      assert input[0] == s[0] as int;
      assert (s[0] as int) as char == s[0];
      assert input[1..] == Bytes(s[1..]) + [terminator] + rest;
      ReadBackTypedLine(s[1..], terminator, rest);
      assert Line(input) == [s[0]] + s[1..];
    }
  }

  /** A prefix of n bytes followed by a terminator, or by nothing, is the whole line. */
  lemma LineEndsAt(input: seq<Getc>, n: nat)
    requires n <= |input|
    requires forall i :: 0 <= i < n ==> 0 <= input[i] && input[i] != Newline
    requires n < |input| ==> EndsLine(input[n])
    ensures |Line(input)| == n
    ensures Consumed(input) == if n < |input| && input[n] == Newline then n + 1 else n
  {
    LineIsPrefix(input);
  }

  /** flsh_read_line over the stream `input`. Returns the heap buffer, the index of its
      terminating NUL and how many stream elements were consumed. The buffer starts at
      RlBufSize cells and grows by RlBufSize whenever position reaches its size, so every
      write, the final NUL included, is in bounds. */
  method ReadLine(input: seq<Getc>) returns (buffer: array<char>, position: nat, consumed: nat)
    ensures position < buffer.Length
    ensures buffer[..position] == Line(input)
    ensures buffer[position] == Nul
    ensures consumed == Consumed(input)
    ensures buffer.Length % RlBufSize == 0 && buffer.Length <= position + RlBufSize
  {
    position := 0;
    buffer := new char[RlBufSize];
    var next := 0;
    while true
      invariant next <= |input| && position == next
      invariant fresh(buffer)
      invariant buffer.Length % RlBufSize == 0 && position < buffer.Length <= position + RlBufSize
      invariant forall i :: 0 <= i < position ==>
        0 <= input[i] && input[i] != Newline && buffer[i] == input[i] as char
      decreases |input| - next
    {
      var read := GetChar(input, next);
      var c := read.0;
      next := read.1;
      if c == EOF || c == Newline {
        buffer[position] := Nul;
        consumed := next;
        LineEndsAt(input, position);
        LineIsPrefix(input);
        assert buffer[..position] == Line(input);
        return;
      }
      buffer := Alloc.StoreAndGrow(buffer, position, c as char, RlBufSize);
      position := position + 1;
    }
  }
}
