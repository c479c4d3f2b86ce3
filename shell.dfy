/** One pass of flsh_loop's body: read a line, split it, execute it. */
module Shell {
  import opened Wrappers
  import opened CStrings
  import opened LineReader
  import opened Tokenizer
  import opened Builtins

  /** The outcome of one iteration and how much of the stream it consumed. */
  datatype Step = Step(outcome: Outcome, consumed: nat)

  /** What one iteration does with the stream input: execute the tokens of the line it
      reads. A NUL byte typed inside the line ends the string that strtok sees. */
  function Iteration(input: seq<Getc>, forkSucceeds: bool): Step {
    Step(Execute(Split(CString(Line(input))), forkSucceeds), Consumed(input))
  }

  /** flsh_read_line, then the string that strtok sees: the buffer up to its first NUL. */
  method ReadCommandLine(input: seq<Getc>) returns (line: string, consumed: nat)
    ensures line == CString(Line(input))
    ensures consumed == Consumed(input)
  {
    var buffer, position;
    buffer, position, consumed := ReadLine(input);
    var len := 0;
    while buffer[len] != Nul
      invariant len <= position
      invariant forall i :: 0 <= i < len ==> buffer[i] != Nul
      decreases position - len
    {
      len := len + 1;
    }
    CStringAt(buffer[..position], len);
    assert buffer[..position][..len] == buffer[..len];
    line := buffer[..len];
  }

  /** The argument vector flsh_execute receives: the token array read up to its NULL
      sentinel. */
  method Arguments(tokens: array<Option<string>>, count: nat, ghost ts: seq<string>)
    returns (args: seq<string>)
    requires count == |ts| && count < tokens.Length
    requires forall k :: 0 <= k < count ==> tokens[k] == Some(ts[k])
    requires tokens[count] == None
    ensures args == ts
  {
    args := [];
    var k := 0;
    while tokens[k].Some?
      invariant k <= count
      invariant args == ts[..k]
      decreases count - k
    {
      args := args + [tokens[k].value];
      k := k + 1;
    }
  }

  /** The body of flsh_loop: flsh_read_line, flsh_split_line and flsh_execute in a row. */
  method LoopBody(input: seq<Getc>, forkSucceeds: bool) returns (outcome: Outcome, consumed: nat)
    ensures outcome == Iteration(input, forkSucceeds).outcome
    ensures consumed == Iteration(input, forkSucceeds).consumed
  {
    var line;
    line, consumed := ReadCommandLine(input);
    var tokens, count := SplitLine(line);
    var args := Arguments(tokens, count, Split(line));
    outcome := Execute(args, forkSucceeds);
  }

  /** An empty line, or one of delimiters only, runs nothing and keeps the loop going. */
  lemma BlankLineContinues(input: seq<Getc>, forkSucceeds: bool)
    requires AllDelims(Line(input))
    ensures Iteration(input, forkSucceeds).outcome == Outcome(NoCommand, 1)
  {
    var line := Line(input);
    var n := |CString(line)|;
    assert AllDelims(CString(line)) by {
      forall i | 0 <= i < n ensures IsDelim(CString(line)[i]) {
        assert CString(line)[i] == line[i];
      }
    }
    SplitEmptyIffAllDelims(CString(line));
  }

  /** The loop stops after this iteration exactly when the first token of the line is
      "exit". */
  lemma StopsOnlyOnExit(input: seq<Getc>, forkSucceeds: bool)
    ensures Iteration(input, forkSucceeds).outcome.status == 0 <==>
      (var args := Split(CString(Line(input))); args != [] && args[0] == "exit")
  {
  }

  /** End of input is sticky: once the stream has run out or reached EOF, the reader
      returns an empty line without consuming anything, so the iteration runs nothing,
      continues, and the next one starts from the very same state: the loop never ends. */
  lemma EndOfInputRepeats(input: seq<Getc>, forkSucceeds: bool)
    requires input == [] || input[0] == EOF
    ensures Iteration(input, forkSucceeds) == Step(Outcome(NoCommand, 1), 0)
  {
  }

  /** The raw input "\ta\tb\n" reads and splits into the same tokens as the line "a  b",
      namely ["a", "b"]. */
  lemma MixedDelimiters(rest: seq<Getc>)
    ensures Split(CString(Line([9, 97, 9, 98, 10] + rest))) == Split("a  b") == ["a", "b"]
  {
    TabbedLineRead(rest);
    TabbedLineSplit();
    SpacedLineSplit();
  }

  /** The typed line "\ta\tb" is read back without its newline and is a C string. */
  lemma TabbedLineRead(rest: seq<Getc>)
    ensures CString(Line([9, 97, 9, 98, 10] + rest)) == "\ta\tb"
  {
    var raw := "\ta\tb";
    assert IsByteString(raw) && '\n' !in raw;
    assert Bytes(raw) == [9, 97, 9, 98];
    ReadBackTypedLine(raw, Newline, rest);
    assert [9, 97, 9, 98, 10] + rest == Bytes(raw) + [Newline] + rest;
    CStringAt(raw, |raw|);
    assert raw[..|raw|] == raw;
  }

  lemma TabbedLineSplit()
    ensures Split("\ta\tb") == ["a", "b"]
  {
    var ts := ["a", "b"];
    assert IsToken(ts[0]) && IsToken(ts[1]);
    var joined := Join(ts, "\t") + "";
    assert joined == "a\tb";
    assert AllDelims("\t") && AllDelims("");
    SplitJoin(ts, "\t", "");
    SplitSkipsDelims("\t", joined);
    assert "\t" + joined == "\ta\tb";
  }

  lemma SpacedLineSplit()
    ensures Split("a  b") == ["a", "b"]
  {
    var ts := ["a", "b"];
    assert IsToken(ts[0]) && IsToken(ts[1]);
    assert Join(ts, "  ") + "" == "a  b";
    assert AllDelims("  ") && AllDelims("");
    SplitJoin(ts, "  ", "");
  }
}
