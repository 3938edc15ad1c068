/**
 * The scan both device handlers apply to their driver's stderr: every chunk is
 * trimmed and split on CRLF, and each line starting with `ERR_` replaces the
 * error code reported for a non-zero exit.
 */
module StderrScan {
  import opened Strings

  const ErrorPrefix := "ERR_"
  /** The code reported for a non-zero exit when the driver printed no error token. */
  const StepExitCode := "ERR_STEP_EXIT_CODE"

  predicate IsErrorToken(line: string) {
    StartsWith(line, ErrorPrefix)
  }

  /** `data.trim().split('\r\n')` */
  function ChunkLines(chunk: string): seq<string> {
    Split(Trim(chunk), "\r\n")
  }

  /**
   * The error code after reading `lines` in order, starting from `code`:
   * the last line that is an error token, or `code` when there is none.
   */
  function LastErrorToken(code: string, lines: seq<string>): string {
    if lines == [] then code
    else if IsErrorToken(lines[|lines| - 1]) then lines[|lines| - 1]
    else LastErrorToken(code, lines[..|lines| - 1])
  }

  /** The code kept is the last error-token line, or the starting code when no line is one. */
  lemma {:induction false} LastErrorTokenWins(code: string, lines: seq<string>)
    ensures (forall i :: 0 <= i < |lines| ==> !IsErrorToken(lines[i])) ==> LastErrorToken(code, lines) == code
    ensures forall i :: 0 <= i < |lines| && IsErrorToken(lines[i]) && NoTokenAfter(lines, i) ==>
              LastErrorToken(code, lines) == lines[i]
  {
    if lines != [] && !IsErrorToken(lines[|lines| - 1]) {
      var init := lines[..|lines| - 1];
      LastErrorTokenWins(code, init);
      forall i | 0 <= i < |init| && IsErrorToken(init[i]) && NoTokenAfter(lines, i)
        ensures NoTokenAfter(init, i)
      {
      }
    }
  }

  predicate NoTokenAfter(lines: seq<string>, i: int) {
    forall j :: 0 <= i < j < |lines| ==> !IsErrorToken(lines[j])
  }

  /** The `data` listener: the error code after one stderr chunk. */
  method ScanChunk(code: string, chunk: string) returns (next: string)
    ensures next == LastErrorToken(code, ChunkLines(chunk))
  {
    var lines := ChunkLines(chunk);
    next := code;
    var i := 0;
    while i < |lines|
      invariant 0 <= i <= |lines|
      invariant next == LastErrorToken(code, lines[..i])
    {
      if IsErrorToken(lines[i]) {
        next := lines[i];
      } else {
        // other lines are only logged
      }
      assert lines[..i + 1][..i] == lines[..i];
      i := i + 1;
    }
    assert lines[..i] == lines;
  }

  /** Reading a second chunk continues from the code the first one left: the last token overall wins. */
  lemma {:induction false} ScanAcrossChunks(code: string, first: seq<string>, second: seq<string>)
    ensures LastErrorToken(code, first + second) == LastErrorToken(LastErrorToken(code, first), second)
    decreases |second|
  {
    if second == [] {
      assert first + second == first;
    } else {
      var all := first + second;
      assert all[..|all| - 1] == first + second[..|second| - 1];
      assert all[|all| - 1] == second[|second| - 1];
      if !IsErrorToken(second[|second| - 1]) {
        ScanAcrossChunks(code, first, second[..|second| - 1]);
      }
    }
  }

  /**
   * A chunk holding one error-token line ended by CRLF (for example
   * `ERR_CUSTOM_CODE\r\n`) replaces whatever code was kept with that token.
   */
  lemma SingleTokenLineOverrides(code: string, token: string)
    requires IsErrorToken(token) && !IsJsSpace(token[|token| - 1])
    requires forall j :: !OccursAt(token, "\r\n", j)
    ensures LastErrorToken(code, ChunkLines(token + "\r\n")) == token
  {
    var chunk := token + "\r\n";
    assert Trim(chunk) == token by {
      assert TrimStart(chunk) == chunk by {
        assert chunk[0] == token[0] == 'E';
      }
      assert chunk[..|chunk| - 1] == token + "\r";
      assert chunk[..|chunk| - 1][..|chunk| - 2] == token;
      assert TrimEnd(chunk) == TrimEnd(token + "\r") == TrimEnd(token) == token;
    }
    SplitWithoutSeparator(token, "\r\n");
  }

  /** A string without the separator splits into itself alone. */
  lemma {:induction false} SplitWithoutSeparator(s: string, sep: string)
    requires |sep| > 0
    requires forall j :: !OccursAt(s, sep, j)
    ensures Split(s, sep) == [s]
    decreases |s|
  {
    if |s| >= |sep| {
      assert !OccursAt(s, sep, 0);
      forall j ensures !OccursAt(s[1..], sep, j) {
        if 0 <= j && j + |sep| <= |s| - 1 {
          assert s[1..][j..j + |sep|] == s[j + 1..j + 1 + |sep|];
          assert !OccursAt(s, sep, j + 1);
        }
      }
      SplitWithoutSeparator(s[1..], sep);
      assert s == [s[0]] + s[1..];
    }
  }
}
