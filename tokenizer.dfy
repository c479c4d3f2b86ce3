/** flsh_split_line: split a line into tokens with strtok and collect them in a growing,
    NULL-terminated vector. */
module Tokenizer {
  import opened Wrappers
  import opened CStrings
  import Alloc

  /** FLSH_TOK_BUFSIZE: the initial number of token slots and the step it grows by. */
  const TokBufSize: nat := 64

  /** FLSH_TOK_DELIM: space, tab, carriage return, newline and bell. */
  const Delimiters: set<char> := {' ', '\t', '\r', '\n', '\U{7}'}

  predicate IsDelim(c: char) {
    c in Delimiters
  }

  /** A well-formed token: non-empty and free of delimiters. */
  predicate IsToken(t: string) {
    t != [] && forall i :: 0 <= i < |t| ==> !IsDelim(t[i])
  }

  /** The length of the maximal run of non-delimiters that starts s. */
  function TokenLen(s: string): (n: nat)
    ensures n <= |s|
    ensures forall i :: 0 <= i < n ==> !IsDelim(s[i])
    ensures n < |s| ==> IsDelim(s[n])
  {
    if s == [] || IsDelim(s[0]) then 0 else 1 + TokenLen(s[1..])
  }

  /** The tokens strtok returns for s with the delimiter set above, in order: the maximal
      runs of non-delimiters, with the empty fields between delimiters dropped. */
  function Split(s: string): seq<string>
    decreases |s|
  {
    if s == [] then []
    else if IsDelim(s[0]) then Split(s[1..])
    else
      var n := TokenLen(s);
      [s[..n]] + Split(s[n..])
  }

  /** The characters of s that are not delimiters, in order. */
  function RemoveDelims(s: string): string {
    if s == [] then []
    else (if IsDelim(s[0]) then [] else [s[0]]) + RemoveDelims(s[1..])
  }

  function Concat(ts: seq<string>): string {
    if ts == [] then [] else ts[0] + Concat(ts[1..])
  }

  /** Tokens separated by sep. */
  function Join(ts: seq<string>, sep: string): string {
    if ts == [] then []
    else if |ts| == 1 then ts[0]
    else ts[0] + sep + Join(ts[1..], sep)
  }

  predicate AllDelims(s: string) {
    forall i :: 0 <= i < |s| ==> IsDelim(s[i])
  }

  /** Every token Split returns is non-empty and contains no delimiter. */
  lemma {:induction false} SplitTokensWellFormed(s: string)
    ensures forall k :: 0 <= k < |Split(s)| ==> IsToken(Split(s)[k])
    decreases |s|
  {
    if s == [] {
    } else if IsDelim(s[0]) {
      SplitTokensWellFormed(s[1..]);
    } else {
      var n := TokenLen(s);
      SplitTokensWellFormed(s[n..]);
      assert IsToken(s[..n]);
    }
  }

  lemma {:induction false} RemoveDelimsAppend(a: string, b: string)
    ensures RemoveDelims(a + b) == RemoveDelims(a) + RemoveDelims(b)
  {
    if a == [] {
      assert a + b == b;
    } else {
      assert (a + b)[1..] == a[1..] + b;
      RemoveDelimsAppend(a[1..], b);
    }
  }

  lemma {:induction false} RemoveDelimsOfToken(t: string)
    requires forall i :: 0 <= i < |t| ==> !IsDelim(t[i])
    ensures RemoveDelims(t) == t
  {
    if t != [] {
      RemoveDelimsOfToken(t[1..]);
    }
  }

  /** Concatenating the tokens gives the line with every delimiter removed: nothing but
      delimiters is dropped, and the tokens come in input order. */
  lemma {:induction false} SplitKeepsNonDelimiters(s: string)
    ensures Concat(Split(s)) == RemoveDelims(s)
    decreases |s|
  {
    if s == [] {
    } else if IsDelim(s[0]) {
      SplitKeepsNonDelimiters(s[1..]);
    } else {
      var n := TokenLen(s);
      var ts := Split(s);
      assert ts == [s[..n]] + Split(s[n..]);
      assert ts[1..] == Split(s[n..]);
      SplitKeepsNonDelimiters(s[n..]);
      assert s == s[..n] + s[n..];
      RemoveDelimsAppend(s[..n], s[n..]);
      RemoveDelimsOfToken(s[..n]);
    }
  }

  /** A line of delimiters only (the empty line included) is the only kind of line
      that yields no tokens. */
  lemma {:induction false} SplitEmptyIffAllDelims(s: string)
    ensures Split(s) == [] <==> AllDelims(s)
    decreases |s|
  {
    if s == [] {
    } else if IsDelim(s[0]) {
      SplitEmptyIffAllDelims(s[1..]);
      assert AllDelims(s) <==> AllDelims(s[1..]) by {
        if AllDelims(s[1..]) {
          forall i | 0 <= i < |s| ensures IsDelim(s[i]) {
            if i > 0 { assert s[i] == s[1..][i - 1]; }
          }
        }
      }
    } else {
      assert !AllDelims(s);
    }
  }

  /** Leading delimiters are skipped. */
  lemma {:induction false} SplitSkipsDelims(d: string, s: string)
    requires AllDelims(d)
    ensures Split(d + s) == Split(s)
  {
    if d != [] {
      assert (d + s)[1..] == d[1..] + s;
      SplitSkipsDelims(d[1..], s);
    } else {
      assert d + s == s;
    }
  }

  /** A run of non-delimiters followed by the end of the line or by a delimiter is
      exactly the leading run of the whole. */
  lemma {:induction false} TokenLenOfRun(t: string, rest: string)
    requires forall i :: 0 <= i < |t| ==> !IsDelim(t[i])
    requires rest == [] || IsDelim(rest[0])
    ensures TokenLen(t + rest) == |t|
  {
    if t == [] {
      assert t + rest == rest;
    } else {
      assert (t + rest)[0] == t[0];
      assert (t + rest)[1..] == t[1..] + rest;
      TokenLenOfRun(t[1..], rest);
    }
  }

  /** A token followed by the end of the line or by a delimiter is split off whole. */
  lemma {:induction false} SplitTokenFirst(t: string, rest: string)
    requires IsToken(t)
    requires rest == [] || IsDelim(rest[0])
    ensures Split(t + rest) == [t] + Split(rest)
  {
    var s := t + rest;
    var n := TokenLen(s);
    TokenLenOfRun(t, rest);
    assert s[..n] == t && s[n..] == rest;
  }

  /** Joining well-formed tokens with a non-empty run of delimiters, and padding the
      result with delimiters on the right, splits back into the same tokens. */
  lemma {:induction false} SplitJoin(ts: seq<string>, sep: string, trail: string)
    requires forall k :: 0 <= k < |ts| ==> IsToken(ts[k])
    requires sep != [] && AllDelims(sep) && AllDelims(trail)
    ensures Split(Join(ts, sep) + trail) == ts
  {
    if ts == [] {
      assert Join(ts, sep) + trail == trail;
      SplitEmptyIffAllDelims(trail);
    } else if |ts| == 1 {
      SplitTokenFirst(ts[0], trail);
      SplitEmptyIffAllDelims(trail);
    } else {
      var tail := sep + Join(ts[1..], sep) + trail;
      assert Join(ts, sep) + trail == ts[0] + tail;
      assert tail[0] == sep[0];
      SplitTokenFirst(ts[0], tail);
      assert tail == sep + (Join(ts[1..], sep) + trail);
      SplitSkipsDelims(sep, Join(ts[1..], sep) + trail);
      SplitJoin(ts[1..], sep, trail);
      assert ts == [ts[0]] + ts[1..];
    }
  }

  /** Delimiters around and between the words are all dropped: "  a   b  " splits into
      ["a", "b"]. */
  lemma SplitPaddedExample()
    ensures Split("  a   b  ") == ["a", "b"]
  {
    var ts := ["a", "b"];
    assert IsToken(ts[0]) && IsToken(ts[1]);
    assert "  a   b  " == "  " + (Join(ts, "   ") + "  ");
    SplitJoin(ts, "   ", "  ");
    SplitSkipsDelims("  ", Join(ts, "   ") + "  ");
  }

  /** A suffix that starts with a delimiter splits as the suffix after it: the case of
      SplitSkipsDelims with a single delimiter. */
  lemma SplitDelimHead(s: string, i: nat)
    requires i < |s| && IsDelim(s[i])
    ensures Split(s[i..]) == Split(s[i + 1..])
  {
    assert s[i..] == [s[i]] + s[i + 1..];
    SplitSkipsDelims([s[i]], s[i + 1..]);
  }

  /** strtok with the saved position from, as ISO C (section 7.24.5.8 of ISO/IEC
      9899:2011) describes it: skip the delimiters; at the end of the string answer NULL
      and stay there; otherwise the token runs up to the next delimiter or the end, and
      the next call starts just past that delimiter, or at the end. */
  function StrtokSpec(s: string, from: nat): (Option<string>, nat)
    requires from <= |s|
    decreases |s| - from
  {
    if from == |s| then (None, |s|)
    else if IsDelim(s[from]) then StrtokSpec(s, from + 1)
    else
      var j := from + TokenLen(s[from..]);
      (Some(s[from..j]), if j < |s| then j + 1 else j)
  }

  /** Delimiters skipped from from to i do not change what strtok answers. */
  lemma {:induction false} SkippedAt(s: string, from: nat, i: nat)
    requires from <= i <= |s|
    requires forall k :: from <= k < i ==> IsDelim(s[k])
    ensures StrtokSpec(s, from) == StrtokSpec(s, i)
    decreases i - from
  {
    if from < i {
      SkippedAt(s, from + 1, i);
    }
  }

  /** The token found between i and j, after the delimiters from from to i, is the next
      token of the split. */
  lemma StrtokFound(s: string, from: nat, i: nat, j: nat)
    requires from <= i < j <= |s|
    requires forall k :: from <= k < i ==> IsDelim(s[k])
    requires forall k :: i <= k < j ==> !IsDelim(s[k])
    requires j < |s| ==> IsDelim(s[j])
    ensures Split(s[from..]) == [s[i..j]] + Split(s[if j < |s| then j + 1 else j..])
  {
    SplitAfterDelims(s, from, i);
    var t := s[i..j];
    assert IsToken(t) by {
      forall k | 0 <= k < |t| ensures !IsDelim(t[k]) {
        assert t[k] == s[i + k];
      }
    }
    assert s[i..] == t + s[j..];
    SplitTokenFirst(t, s[j..]);
    if j < |s| {
      SplitDelimHead(s, j);
    }
  }

  /** The same token and resume point are what strtok is specified to return. */
  lemma StrtokFoundSpec(s: string, from: nat, i: nat, j: nat)
    requires from <= i < j <= |s|
    requires forall k :: from <= k < i ==> IsDelim(s[k])
    requires forall k :: i <= k < j ==> !IsDelim(s[k])
    requires j < |s| ==> IsDelim(s[j])
    ensures StrtokSpec(s, from) == (Some(s[i..j]), if j < |s| then j + 1 else j)
  {
    SkippedAt(s, from, i);
    var t := s[i..j];
    assert IsToken(t) by {
      forall k | 0 <= k < |t| ensures !IsDelim(t[k]) {
        assert t[k] == s[i + k];
      }
    }
    assert s[i..] == t + s[j..];
    TokenLenOfRun(t, s[j..]);
  }

  /** Skipping delimiters changes nothing in the split. */
  lemma SplitAfterDelims(s: string, from: nat, i: nat)
    requires from <= i <= |s|
    requires forall k :: from <= k < i ==> IsDelim(s[k])
    ensures Split(s[from..]) == Split(s[i..])
  {
    assert AllDelims(s[from..i]) by {
      forall k | 0 <= k < i - from ensures IsDelim(s[from..i][k]) {
        assert s[from..i][k] == s[from + k];
      }
    }
    assert s[from..] == s[from..i] + s[i..];
    SplitSkipsDelims(s[from..i], s[i..]);
  }

  /** The first step of strtok: the index of the first non-delimiter at or after from,
      or the end of the string. */
  method SkipDelims(s: string, from: nat) returns (i: nat)
    requires from <= |s|
    ensures from <= i <= |s|
    ensures forall k :: from <= k < i ==> IsDelim(s[k])
    ensures i < |s| ==> !IsDelim(s[i])
  {
    i := from;
    while i < |s| && IsDelim(s[i])
      invariant from <= i <= |s|
      invariant forall k :: from <= k < i ==> IsDelim(s[k])
    {
      i := i + 1;
    }
  }

  /** The second step of strtok: the end of the token that starts at i, the first
      delimiter after it or the end of the string. */
  method TokenEnd(s: string, i: nat) returns (j: nat)
    requires i < |s| && !IsDelim(s[i])
    ensures i < j <= |s|
    ensures forall k :: i <= k < j ==> !IsDelim(s[k])
    ensures j < |s| ==> IsDelim(s[j])
  {
    j := i + 1;
    while j < |s| && !IsDelim(s[j])
      invariant i < j <= |s|
      invariant forall k :: i <= k < j ==> !IsDelim(s[k])
    {
      j := j + 1;
    }
  }

  /** What strtok answers is the next token of the split, and it resumes where the rest
      of the split starts: NULL exactly when no token is left, and then it stays at the
      end of the string. */
  lemma {:induction false} StrtokSplits(s: string, from: nat)
    requires from <= |s|
    ensures var (token, next) := StrtokSpec(s, from);
      from <= next <= |s| &&
      (token.None? ==> Split(s[from..]) == [] && next == |s|) &&
      (token.Some? ==> from < next && Split(s[from..]) == [token.value] + Split(s[next..]))
    decreases |s| - from
  {
    if from == |s| {
      assert s[from..] == [];
    } else if IsDelim(s[from]) {
      SplitDelimHead(s, from);
      StrtokSplits(s, from + 1);
    } else {
      var j := from + TokenLen(s[from..]);
      assert forall k :: from <= k < j ==> !IsDelim(s[k]) by {
        forall k | from <= k < j ensures !IsDelim(s[k]) {
          assert s[from..][k - from] == s[k];
        }
      }
      assert j < |s| ==> s[from..][j - from] == s[j];
      StrtokFound(s, from, from, j);
    }
  }

  /** One call of strtok on s, resuming at index from (strtok's saved position).
      Skips delimiters; at the end of the string it returns NULL; otherwise it returns
      the run of non-delimiters found there and resumes after the delimiter that ends it. */
  method Strtok(s: string, from: nat) returns (token: Option<string>, next: nat)
    requires from <= |s|
    ensures (token, next) == StrtokSpec(s, from)
  {
    var i := SkipDelims(s, from);
    if i == |s| {
      SkippedAt(s, from, i);
      return None, |s|;
    }
    var j := TokenEnd(s, i);
    token := Some(s[i..j]);
    StrtokFoundSpec(s, from, i, j);
    next := if j < |s| then j + 1 else j;
  }

  /** Growing the vector by TokBufSize keeps its size a multiple of TokBufSize. */
  lemma SizeStaysMultiple(size: nat, grown: nat)
    requires size % TokBufSize == 0
    requires grown == size || grown == size + TokBufSize
    ensures grown % TokBufSize == 0
  {
  }

  /** flsh_split_line on the C string line. The token vector starts with TokBufSize slots
      and grows by TokBufSize whenever it fills; slots 0 .. position-1 hold the tokens
      of Split(line) in order and the NULL sentinel sits, in bounds, at index position. */
  method SplitLine(line: string) returns (tokens: array<Option<string>>, position: nat)
    requires IsCString(line)
    ensures position == |Split(line)| && position < tokens.Length
    ensures forall k :: 0 <= k < position ==> tokens[k] == Some(Split(line)[k])
    ensures tokens[position] == None
    ensures tokens.Length % TokBufSize == 0 && tokens.Length <= position + TokBufSize
  {
    position := 0;
    tokens := new Option<string>[TokBufSize];
    ghost var done: seq<string> := [];
    var token, next := Strtok(line, 0);
    StrtokSplits(line, 0);
    while token.Some?
      invariant next <= |line|
      invariant fresh(tokens)
      invariant tokens.Length % TokBufSize == 0 && position < tokens.Length <= position + TokBufSize
      invariant position == |done|
      invariant forall k :: 0 <= k < position ==> tokens[k] == Some(done[k])
      invariant token.Some? ==> Split(line) == done + [token.value] + Split(line[next..])
      invariant token.None? ==> Split(line) == done
      decreases |line| - next + (if token.Some? then 1 else 0)
    {
      ghost var size := tokens.Length;
      tokens := Alloc.StoreAndGrow(tokens, position, token, TokBufSize);
      SizeStaysMultiple(size, tokens.Length);
      done := done + [token.value];
      position := position + 1;

      ghost var from := next;
      token, next := Strtok(line, next);
      StrtokSplits(line, from);
    }
    assert Split(line) == done;
    tokens[position] := None;
  }
}
