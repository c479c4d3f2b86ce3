# flsh in Dafny

A model of the text handling and dispatch of flsh, a minimal interactive shell
written in C (`flsh.c`). One pass of its loop reads a line from standard input,
splits it into whitespace-separated tokens and either runs one of three builtins
(`cd`, `help`, `exit`) or launches the command as an external program. The
returned status tells the loop whether to keep going.

Modules:

- `LineReader` (`line_reader.dfy`): `flsh_read_line`. Standard input is a
  `seq<Getc>`: each element is a byte 0..255 or `EOF` (-1), and a stream that
  has run out or reached an `EOF` element keeps answering `EOF` without
  advancing: end of input is sticky, as for C's `getchar`. `ReadLine` writes into an `array<char>` that
  starts at 1024 cells and is reallocated 1024 cells larger whenever `position`
  reaches its size. It returns the buffer, the index of its terminating NUL and
  how much of the stream it consumed. `Line` and `Consumed` are its
  specification.
- `Tokenizer` (`tokenizer.dfy`): `flsh_split_line` with `strtok` semantics over
  the delimiter set space, tab, carriage return, newline and bell. `Split` is the
  specification: the maximal runs of non-delimiters, in order. `Strtok` is one
  `strtok` call, resuming at a saved index, proved equal to `StrtokSpec`, a
  reference definition of `strtok`. `SplitLine` fills an
  `array<Option<string>>` that grows by 64 slots and ends with a `None`
  sentinel, which plays the part of NULL.
- `Builtins` (`builtins.dfy`): the parallel tables `builtin_str` and
  `builtin_func`, the handlers' return values, and `flsh_execute` as the pure
  function `Execute`. Its result records which action was taken and the status.
  The effects of `cd`, `help` and of launching are tags. Whether `fork`
  succeeds is a parameter.
- `Shell` (`shell.dfy`): one iteration of the loop, `Iteration` (specification)
  and `LoopBody` (the three calls chained through the arrays).
- `CStrings` (`cstrings.dfy`): the NUL terminator and the C string a buffer
  holds. The buffer is read as a C string, so a NUL byte typed inside a line
  ends what `strtok` sees.
- `Alloc` (`alloc.dfy`): `realloc` as a fresh larger array holding the old
  contents, and the store-then-grow step both buffers share. `Wrappers` (`wrappers.dfy`): `Option`.

A read that starts at end of input returns an empty line and consumes
nothing, and since EOF is sticky every later read does the same. The dispatcher
then continues, so once a read starts at end of input the real loop prompts
forever. A last line cut short by EOF, such as `exit` without a newline, is still
read and executed first.
The model keeps this behaviour and states it as `Shell.EndOfInputRepeats`.

## Model

| member | source | states |
|---|---|---|
| LineReader.GetChar | flsh.c:59 | `getchar` returns the next byte and advances, or returns EOF when the stream has run out or reached an EOF element, and then does not advance: end of input is sticky |
| LineReader.ReadLine | flsh.c:44-83 | the buffer up to `position` is exactly the line; a NUL sits at `position`, which is in bounds; the stream advances past the line and a newline ending it, but not past EOF; the buffer size is the smallest multiple of 1024 above `position` |
| LineReader.LineIsPrefix | flsh.c:57-69 | the line is the input before the first newline or EOF, byte for byte; it contains no newline; the terminator follows it; a newline is consumed but not stored, EOF is not consumed |
| LineReader.ReadBackTypedLine | flsh.c:59-68 | a byte string without a newline, followed by a newline or EOF, is read back unchanged; a newline is consumed with it and an EOF is not |
| Alloc.Realloc | flsh.c:72-81 | the grown buffer has the requested size and keeps the old contents |
| Alloc.StoreAndGrow | flsh.c:67-81 | the value is stored at the index, the cells before it are kept, and the buffer grows by the step exactly when the next index would reach its size |
| Tokenizer.TokenLen | flsh.c:98-114 | the token `strtok` finds is the maximal run of non-delimiters: none of its characters is a delimiter, and the next character is one or the string ends |
| Tokenizer.SplitTokensWellFormed | flsh.c:98-115 | every token is non-empty and contains none of space, tab, carriage return, newline or bell |
| Tokenizer.SplitKeepsNonDelimiters | flsh.c:98-115 | the tokens, concatenated in order, give the line with every delimiter removed |
| Tokenizer.SplitEmptyIffAllDelims | flsh.c:98-116 | a line yields no tokens, so the sentinel is at index 0, if and only if it is empty or made of delimiters only |
| Tokenizer.SplitJoin | flsh.c:98-115 | well-formed tokens joined by a run of delimiters, with delimiters appended, split back into the same tokens |
| Tokenizer.SplitPaddedExample | flsh.c:98-115 | `"  a   b  "` splits into `["a", "b"]` |
| Tokenizer.Strtok | flsh.c:98-114 | one `strtok` call, built from a delimiter skip and a token scan, answers exactly what `StrtokSpec` (strtok as ISO C describes it) answers: the token and the index it resumes at |
| Tokenizer.StrtokSplits | flsh.c:98-114 | what `strtok` answers is the next token of the split and it resumes where the rest of the split starts; it answers NULL exactly when only delimiters remain, and then stays at the end of the string |
| Tokenizer.SkipDelims | flsh.c:98-114 | the first step of `strtok` stops at the first non-delimiter at or after the saved position, or at the end |
| Tokenizer.TokenEnd | flsh.c:98-114 | the second step of `strtok` stops at the first delimiter after the token's first character, or at the end |
| Tokenizer.StrtokFoundSpec | flsh.c:98-114 | a run of non-delimiters ended by a delimiter or the end, after only delimiters, is the token `strtok` returns, and it resumes one past the delimiter |
| Tokenizer.SkippedAt | flsh.c:98-114 | skipping delimiters does not change what `strtok` answers |
| Tokenizer.SplitLine | flsh.c:85-118 | slots 0..position-1 hold the tokens of `Split(line)` in order; the NULL sentinel is in bounds at index position, the token count; the capacity is the smallest multiple of 64 above the count |
| Builtins.NumBuiltins | flsh.c:157-172 | the name table and the handler table both have 3 entries |
| Builtins.Cd | flsh.c:178-188 | `cd` returns 1; it reports a usage error and changes nothing exactly when there is no second argument |
| Builtins.Help | flsh.c:190-203 | `help` returns 1 and lists every builtin name |
| Builtins.Exit | flsh.c:205-208 | `exit` returns 0 |
| Builtins.LaunchCommand | flsh.c:120-143 | records a launch attempt of the whole argument vector, tagged `Waited` when `fork` succeeds and `ForkFailed` when it fails, and returns 1 either way |
| Builtins.FindBuiltin | flsh.c:219-223 | the scan finds the first table index whose name equals the command, or reports that no name equals it |
| Builtins.Execute | flsh.c:210-226 | an empty vector runs nothing and returns 1; a command naming a builtin runs the first entry with that name; any other command is launched with status 1; the status is 0 exactly when the command is `exit` |
| Builtins.FindBuiltinOfEachName | flsh.c:157-161 | the names are distinct, so each builtin is reached by its own name |
| Builtins.ExitIgnoresArguments | flsh.c:205-208 | `exit` with any trailing arguments runs the exit builtin and returns 0 |
| Builtins.CdDispatch | flsh.c:180-186 | `cd` alone gives the usage error and no directory change; `cd dir` changes to `dir`; both return 1 |
| Builtins.HelpDispatch | flsh.c:197-202 | `help` with any arguments lists all builtin names and returns 1 |
| CStrings.CString | flsh.c:64-65 | the string handed on is the buffer before its first NUL, and it contains no NUL |
| CStrings.CStringAt | flsh.c:64 | a NUL-free prefix that ends at a NUL is the C string of the buffer |
| Shell.LoopBody | flsh.c:33-37 | reading, splitting and executing through the buffers runs the same action with the same status as `Iteration`, whether builtin, launch or nothing, and leaves the stream where `Iteration` says |
| Shell.ReadCommandLine | flsh.c:35-36 | the string `flsh_split_line` receives is the line read, cut at its first NUL, and the stream advances as `flsh_read_line` consumes it |
| Shell.Arguments | flsh.c:36-37 | reading the token array up to its NULL sentinel gives back exactly the tokens stored before it |
| Shell.BlankLineContinues | flsh.c:214-217 | an empty or delimiter-only line runs nothing and returns 1 |
| Shell.StopsOnlyOnExit | flsh.c:37-41 | the loop stops after a line exactly when its first token is `exit` |
| Shell.EndOfInputRepeats | flsh.c:59-65 | once the stream has run out or reached EOF, the iteration consumes nothing, runs nothing and continues, so the next one sees the same input |
| Shell.MixedDelimiters | flsh.c:9 | the raw input tab, `a`, tab, `b`, newline yields the same tokens as the line `"a  b"`, namely `["a", "b"]` |

## Left out

- `fork`, `execvp` and the `waitpid` loop of `flsh_launch` (flsh.c:125-140): process management. Its parent side is the tag `Waited` or `ForkFailed`, chosen by a parameter; the child process is not modelled.
- Builtins.LaunchCommand: does not model the wait for the child to exit or be killed, nor the `execvp` failure in the child, because these happen in another process and never affect the returned status.
- The `chdir` call and the `perror`/`fprintf` diagnostics (flsh.c:181-185): OS side effects. Only the branch on whether an argument is present is kept; `ChangeDirectory(dir)` stands for the attempt whether or not it succeeds.
- The text `help` prints (flsh.c:193-201): output only. The model records the list of names it iterates over.
- `main` and the repetition in `flsh_loop` (flsh.c:16-42), including the prompt: the interactive loop. One iteration is modelled (`Shell.Iteration`, `Shell.LoopBody`).
- The `malloc`/`realloc` failure paths that exit the process (flsh.c:52-55, 77-79, 93-96, 108-110): allocation always succeeds here.
- `strtok` cutting the line in place with NUL bytes, tokens being pointers into the line: tokens are copied strings.
- The 32-bit `int` counters `position` and `bufsize`: they are unbounded here, so lines or token counts beyond `INT_MAX` are not modelled.
- Freeing the buffers (flsh.c:39-40): Dafny memory is not freed explicitly.
