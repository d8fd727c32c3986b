/** What the line reader is meant to deliver: the stream cut at newlines, trimmed, blanks dropped. */
module Lines {

  const NUL: char := '\0'
  const NEWLINE: char := '\n'

  predicate IsTrim(ch: char) { ch == NEWLINE || ch == ' ' }

  function LeftTrim(s: string): string {
    if s != [] && IsTrim(s[0]) then LeftTrim(s[1..]) else s
  }

  function RightTrim(s: string): string {
    if s != [] && IsTrim(s[|s| - 1]) then RightTrim(s[..|s| - 1]) else s
  }

  function Trim(s: string): string { RightTrim(LeftTrim(s)) }

  /** The stream cut at newlines; the last piece is what follows the last newline. */
  function Pieces(s: string): (r: seq<string>)
    ensures |r| >= 1
  {
    if s == [] then [[]]
    else if s[0] == NEWLINE then [[]] + Pieces(s[1..])
    else var r := Pieces(s[1..]); [[s[0]] + r[0]] + r[1..]
  }

  /** The nonblank pieces, trimmed. */
  function Commands(pieces: seq<string>): seq<string> {
    if pieces == [] then []
    else (if Trim(pieces[0]) == [] then [] else [Trim(pieces[0])]) + Commands(pieces[1..])
  }

  function Delivered(s: string): seq<string> { Commands(Pieces(s)) }

  function One(line: string): seq<string> { if Trim(line) == [] then [] else [Trim(line)] }

  function Max(a: int, b: int): int { if a > b then a else b }

  function Longest(pieces: seq<string>): nat {
    if pieces == [] then 0 else Max(|pieces[0]|, Longest(pieces[1..]))
  }

  /** The length of the longest piece of a stream. */
  function LongestPiece(s: string): nat { Longest(Pieces(s)) }

  /** The length of the last piece, the one no newline ends. */
  function LastPiece(s: string): nat {
    var r := Pieces(s); |r[|r| - 1]|
  }

  lemma {:induction false} LongestIsMaximum(pieces: seq<string>)
    ensures forall i :: 0 <= i < |pieces| ==> |pieces[i]| <= Longest(pieces)
    ensures pieces != [] ==> exists i :: 0 <= i < |pieces| && |pieces[i]| == Longest(pieces)
  {
    if pieces != [] {
      var rest := pieces[1..];
      LongestIsMaximum(rest);
      assert forall i :: 1 <= i < |pieces| ==> pieces[i] == rest[i - 1];
      if |pieces[0]| >= Longest(rest) {
        assert |pieces[0]| == Longest(pieces);
      } else {
        var i :| 0 <= i < |rest| && |rest[i]| == Longest(rest);
        assert |pieces[i + 1]| == Longest(pieces);
      }
    }
  }

  // ----- cutting off one line

  lemma {:induction false} PiecesOfLine(line: string, rest: string)
    requires NEWLINE !in line
    ensures Pieces(line + [NEWLINE] + rest) == [line] + Pieces(rest)
  {
    var s := line + [NEWLINE] + rest;
    if line == [] {
      assert s[1..] == rest;
    } else {
      PiecesOfLine(line[1..], rest);
      assert s[1..] == line[1..] + [NEWLINE] + rest;
      assert [line[0]] + line[1..] == line;
    }
  }

  lemma {:induction false} PiecesOfTail(line: string)
    requires NEWLINE !in line
    ensures Pieces(line) == [line]
  {
    if line != [] {
      PiecesOfTail(line[1..]);
      assert [line[0]] + line[1..] == line;
    }
  }

  /** A line that is a prefix without newline lies inside the first piece. */
  lemma {:induction false} FirstPieceIsLong(line: string, rest: string)
    requires NEWLINE !in line
    ensures |Pieces(line + rest)[0]| >= |line| && LongestPiece(line + rest) >= |line|
  {
    if line != [] {
      assert (line + rest)[1..] == line[1..] + rest;
      FirstPieceIsLong(line[1..], rest);
    }
  }

  lemma DeliveredLine(line: string, rest: string)
    requires NEWLINE !in line
    ensures Delivered(line + [NEWLINE] + rest) == One(line) + Delivered(rest)
    ensures LongestPiece(line + [NEWLINE] + rest) == Max(|line|, LongestPiece(rest))
    ensures LastPiece(line + [NEWLINE] + rest) == LastPiece(rest)
  {
    PiecesOfLine(line, rest);
    var p, q := Pieces(line + [NEWLINE] + rest), Pieces(rest);
    assert p[0] == line && p[1..] == q;
  }

  lemma DeliveredTail(line: string)
    requires NEWLINE !in line
    ensures Delivered(line) == One(line) && LongestPiece(line) == LastPiece(line) == |line|
  {
    PiecesOfTail(line);
    assert Commands([line]) == One(line) + Commands([]);
    assert Longest([line]) == Max(|line|, Longest([]));
  }

  /** Two streams with the same commands and the same long pieces. */
  ghost predicate SameLines(p: string, q: string) {
    Delivered(p) == Delivered(q) && LongestPiece(p) == LongestPiece(q) && LastPiece(p) == LastPiece(q) && |q| <= |p|
  }

  /** An empty line delivers nothing. */
  lemma SkipEmptyLine(rest: string)
    ensures SameLines([NEWLINE] + rest, rest)
  {
    DeliveredLine([], rest);
    BlankTrims([]);
    assert [] + [NEWLINE] + rest == [NEWLINE] + rest;
    assert One([]) + Delivered(rest) == Delivered(rest);
  }

  /** Cutting one line off the front of a cached text. */
  lemma LineOfCache(s: string, at: nat, rest: string)
    requires at < |s| && s[at] == NEWLINE && NEWLINE !in s[..at]
    ensures s + rest == s[..at] + [NEWLINE] + (s[at + 1..] + rest)
    ensures at == 0 ==> SameLines(s + rest, s[1..] + rest)
  {
    assert s == s[..at] + [NEWLINE] + s[at + 1..];
    assert s + rest == s[..at] + [NEWLINE] + (s[at + 1..] + rest);
    if at == 0 {
      assert s + rest == [NEWLINE] + (s[1..] + rest);
      SkipEmptyLine(s[1..] + rest);
    }
  }

  /** The line that ends at the newline at `at` of a new chunk. */
  lemma ChunkEndsLine(line: string, chunk: string, at: nat, rest: string, most: int, last: int)
    requires NEWLINE !in line && at < |chunk| && chunk[at] == NEWLINE && NEWLINE !in chunk[..at]
    requires |line| + at <= most
    ensures var all := line + chunk;
            OneLineFewer(line + (chunk + rest), all[..|line| + at + 1], all[|line| + at + 1..] + rest, most, last)
  {
    var head, tail := line + chunk[..at], chunk[at + 1..] + rest;
    assert chunk == chunk[..at] + [NEWLINE] + chunk[at + 1..];
    assert line + (chunk + rest) == head + [NEWLINE] + tail;
    assert (line + chunk)[..|line| + at + 1] == head + [NEWLINE];
    assert (line + chunk)[|line| + at + 1..] + rest == tail;
    DeliveredLine(head, tail);
    TrimNewline(head);
  }

  lemma LineGrows(line: string, chunk: string, rest: string)
    ensures line + (chunk + rest) == (line + chunk) + rest
    ensures NEWLINE !in line && NEWLINE !in chunk ==> NEWLINE !in line + chunk
    ensures NUL !in line && NUL !in chunk ==> NUL !in line + chunk
  {
  }

  /** Cutting a text without NUL. */
  lemma NoNulInParts(s: string, k: nat, rest: string)
    requires k <= |s| && NUL !in s && NUL !in rest
    ensures NUL !in s[..k] && NUL !in s[k..] + rest
  {
  }

  /** The unterminated end of the stream. */
  lemma LastLine(line: string, most: int, last: int)
    requires NEWLINE !in line && |line| <= most && |line| <= last
    ensures OneLineFewer(line, line, [], most, last)
  {
    DeliveredTail(line);
    NothingLeft();
  }

  lemma NothingLeft()
    ensures Delivered([]) == [] && LongestPiece([]) == LastPiece([]) == 0
  {
    DeliveredTail([]);
    BlankTrims([]);
  }

  /** `p` is one line of at most `most` bytes, delivered as `line`, and then `rest`; the line has at
      most `last` bytes if it was the unterminated last one. Only the end of the stream is an empty line. */
  ghost predicate OneLineFewer(p: string, line: string, rest: string, most: int, last: int) {
    && Delivered(p) == One(line) + Delivered(rest) && Within(p, rest, most, last)
    && if line == [] then rest == [] else |rest| < |p|
  }

  /** What `p` has and `rest` has not are lines within these lengths. */
  ghost predicate Within(p: string, rest: string, most: int, last: int) {
    && LongestPiece(rest) <= LongestPiece(p) <= Max(most, LongestPiece(rest))
    && LastPiece(rest) <= LastPiece(p) <= Max(last, LastPiece(rest))
  }

  /** Commands delivered so far and those the remaining stream owes make up the whole. */
  ghost predicate Owed(p: string, cmds: seq<string>, rest: string, got: seq<string>, most: int, last: int) {
    && got + Delivered(rest) == cmds + Delivered(p) && Within(p, rest, most, last)
  }

  lemma OwedAfterLine(p: string, cmds: seq<string>, p1: string, got: seq<string>, line: string, rest: string,
                      most1: int, most: int, last: int)
    requires Owed(p, cmds, p1, got, most, last) && OneLineFewer(p1, line, rest, most1, last) && most1 <= most
    ensures Owed(p, cmds, rest, got + One(line), most, last)
    ensures line == [] ==> Owed(p, cmds, rest, got, most, last)
  {
    if line == [] { BlankTrims([]); }
    Regroup(got, One(line), Delivered(rest));
  }

  lemma Regroup(a: seq<string>, b: seq<string>, c: seq<string>)
    ensures a + b + c == a + (b + c)
    ensures b == [] ==> a + c == a + (b + c) && a + b == a
  {
  }

  /** `q` is `p` without some newlines at its beginning. */
  predicate AfterNewlines(p: string, q: string) {
    |q| <= |p| && p[|p| - |q|..] == q && forall k :: 0 <= k < |p| - |q| ==> p[k] == '\n'
  }

  lemma OneNewlineMore(p: string, q: string, r: string)
    requires AfterNewlines(p, q) && q == [NEWLINE] + r
    ensures AfterNewlines(p, r)
  {
    assert p[|p| - |q|] == q[0];
    assert p[|p| - |r|..] == q[1..];
  }

  /** `q` is what is pending of `p` behind some empty lines. */
  ghost predicate SkippedTo(p: string, q: string) { SameLines(p, q) && AfterNewlines(p, q) }

  /** The next newline of a cached text ends an empty line, which is skipped, or a line to be taken. */
  lemma SkipOrTake(p: string, s: string, at: nat, rest: string)
    requires SkippedTo(p, s + rest) && at < |s| && s[at] == NEWLINE && NEWLINE !in s[..at]
    ensures s + rest == s[..at] + [NEWLINE] + (s[at + 1..] + rest)
    ensures at == 0 ==> SkippedTo(p, s[1..] + rest)
    ensures SkippedTo(p, s[..at] + [NEWLINE] + (s[at + 1..] + rest))
  {
    LineOfCache(s, at, rest);
    if at == 0 { OneNewlineMore(p, s + rest, s[1..] + rest); }
  }

  /** Cutting a line off loses no byte. */
  lemma BytesKept(line: string, chunk: string, k: nat, rest: string)
    requires k <= |line + chunk|
    ensures (line + chunk)[..k] + ((line + chunk)[k..] + rest) == line + (chunk + rest)
  {
  }

  /** Of all that was there or owed, what has been queued. */
  lemma PartOfAll(cmds: seq<string>, all: seq<string>, got: seq<string>, left: seq<string>)
    requires got + left == cmds + all && cmds <= got
    ensures got <= cmds + all
    ensures left == [] ==> got[|cmds|..] == all
    ensures forall k :: |cmds| <= k < |got| ==> got[k] in all
  {
    assert (cmds + all)[..|got|] == got;
    if left == [] { assert got == cmds + all; }
    forall k | |cmds| <= k < |got| ensures got[k] in all {
      assert got[k] == (cmds + all)[k] == all[k - |cmds|];
    }
  }

  // ----- chunk sizes

  /** The bytes up to the first newline, that one included, or all of them. */
  function FirstLine(s: string): (n: nat)
    ensures n <= |s| && (s != [] ==> n >= 1)
  {
    if s == [] then 0 else if s[0] == NEWLINE then 1 else 1 + FirstLine(s[1..])
  }

  lemma {:induction false} FirstLineIs(s: string)
    ensures NEWLINE !in s[..FirstLine(s)] ==> FirstLine(s) == |s|
    ensures forall k :: 0 <= k < FirstLine(s) - 1 ==> s[k] != NEWLINE
  {
    if s != [] && s[0] != NEWLINE {
      FirstLineIs(s[1..]);
      assert s[..FirstLine(s)] == [s[0]] + s[1..][..FirstLine(s[1..])];
      assert forall k :: 1 <= k < FirstLine(s) - 1 ==> s[k] == s[1..][k - 1];
    }
  }

  /** Chunks that end where the lines end. */
  function LineSizes(s: string): seq<nat> {
    if s == [] then [] else [FirstLine(s)] + LineSizes(s[FirstLine(s)..])
  }

  /** One byte in every chunk. */
  function ByteSizes(s: string): seq<nat> { seq(|s|, _ => 1) }

  /** A chunk of the first of these sizes, cut at `max` bytes: it ends with its only newline, or the
      stream ends with it, or its line has at least `max` bytes. */
  lemma LineChunk(chunk: string, rest: string, sizes: seq<nat>, max: nat)
    requires chunk != [] && sizes == LineSizes(chunk + rest)
    requires |chunk| == Min(Max(sizes[0], 1), Min(max, |chunk + rest|))
    ensures NEWLINE !in chunk[..|chunk| - 1]
    ensures NEWLINE in chunk ==> sizes[1..] == LineSizes(rest)
    ensures NEWLINE !in chunk ==>
              (|chunk| == max && LongestPiece(chunk + rest) >= max) || (rest == [] && sizes[1..] == [])
  {
    var s := chunk + rest;
    var n := FirstLine(s);
    FirstLineIs(s);
    assert s[..|chunk|] == chunk && s[|chunk|..] == rest;
    if |chunk| == n {
      assert sizes[1..] == LineSizes(rest);
    }
    if NEWLINE in chunk {
      var k :| 0 <= k < |chunk| && chunk[k] == NEWLINE;
      assert s[k] == NEWLINE && k == n - 1;
    } else if |chunk| == max {
      FirstPieceIsLong(chunk, rest);
    }
  }

  function Min(a: int, b: int): int { if a < b then a else b }

  // ----- trimming

  lemma {:induction false} BlankTrims(s: string)
    requires forall i :: 0 <= i < |s| ==> IsTrim(s[i])
    ensures Trim(s) == []
  {
    if s != [] { BlankTrims(s[1..]); }
  }

  lemma {:induction false} RightTrimEnd(s: string, ch: char)
    requires IsTrim(ch)
    ensures RightTrim(s + [ch]) == RightTrim(s)
  {
    assert (s + [ch])[..|s|] == s;
  }

  lemma {:induction false} LeftTrimEnd(s: string, ch: char, i: nat)
    requires i < |s| && !IsTrim(s[i])
    ensures LeftTrim(s + [ch]) == LeftTrim(s) + [ch]
  {
    assert (s + [ch])[1..] == s[1..] + [ch];
    if IsTrim(s[0]) { LeftTrimEnd(s[1..], ch, i - 1); }
  }

  /** A line and the same line with its newline are the same command. */
  lemma TrimNewline(s: string)
    ensures Trim(s + [NEWLINE]) == Trim(s) && One(s + [NEWLINE]) == One(s)
  {
    if i: nat :| i < |s| && !IsTrim(s[i]) {
      LeftTrimEnd(s, NEWLINE, i);
      RightTrimEnd(LeftTrim(s), NEWLINE);
    } else {
      BlankTrims(s);
      BlankTrims(s + [NEWLINE]);
    }
  }

  /** Trimming is characterised by its result: a middle part with clean ends and blank surroundings. */
  lemma TrimIs(s: string, i: nat, j: nat)
    requires i <= j <= |s|
    requires forall k :: 0 <= k < |s| && (k < i || j <= k) ==> IsTrim(s[k])
    requires i < j ==> !IsTrim(s[i]) && !IsTrim(s[j - 1])
    ensures Trim(s) == s[i..j]
  {
    if i == j {
      BlankTrims(s);
    } else {
      LeftTrimIs(s, i);
      RightPart(s, i, j);
    }
  }

  lemma RightPart(s: string, i: nat, j: nat)
    requires i < j <= |s| && !IsTrim(s[j - 1]) && forall k :: j <= k < |s| ==> IsTrim(s[k])
    ensures RightTrim(s[i..]) == s[i..j]
  {
    forall k | j - i <= k < |s[i..]| ensures IsTrim(s[i..][k]) {
      assert s[i..][k] == s[i + k];
    }
    RightTrimIs(s[i..], j - i);
  }

  lemma {:induction false} LeftTrimIs(s: string, i: nat)
    requires i < |s| && !IsTrim(s[i]) && forall k :: 0 <= k < i ==> IsTrim(s[k])
    ensures LeftTrim(s) == s[i..]
  {
    if i > 0 { LeftTrimIs(s[1..], i - 1); }
  }

  lemma {:induction false} RightTrimIs(s: string, j: nat)
    requires 0 < j <= |s| && !IsTrim(s[j - 1]) && forall k :: j <= k < |s| ==> IsTrim(s[k])
    ensures RightTrim(s) == s[..j]
  {
    if j < |s| { RightTrimIs(s[..|s| - 1], j); }
  }

  // ----- the commands of a stream, told byte by byte

  /** The pieces with a newline between any two. */
  function Glued(pieces: seq<string>): string
    requires pieces != []
  {
    if |pieces| == 1 then pieces[0] else pieces[0] + "\n" + Glued(pieces[1..])
  }

  /** The stream cut at its newlines. */
  predicate CutAt(stream: string, pieces: seq<string>) {
    pieces != [] && Glued(pieces) == stream && forall i :: 0 <= i < |pieces| ==> '\n' !in pieces[i]
  }

  /** Only newlines and blanks. */
  predicate AllBlank(s: string) {
    forall k :: 0 <= k < |s| ==> s[k] == '\n' || s[k] == ' '
  }

  /** Neither empty, nor a newline or a blank at one of its ends. */
  predicate Clean(c: string) {
    c != [] && c[0] != '\n' && c[0] != ' ' && c[|c| - 1] != '\n' && c[|c| - 1] != ' '
  }

  /** The command is a clean part of the piece, with nothing but newlines and blanks around it. */
  predicate CommandOf(piece: string, c: string) {
    Clean(c) && exists i, j :: 0 <= i <= j <= |piece| && PartOf(piece, i, j, c)
  }

  predicate PartOf(piece: string, i: nat, j: nat, c: string)
    requires i <= j <= |piece|
  {
    c == piece[i..j] && AllBlank(piece[..i]) && AllBlank(piece[j..])
  }

  /** Blank pieces are dropped, and of every other one its command is queued, in order. */
  predicate QueuedFrom(pieces: seq<string>, commands: seq<string>) {
    if pieces == [] then commands == []
    else if AllBlank(pieces[0]) then QueuedFrom(pieces[1..], commands)
    else commands != [] && CommandOf(pieces[0], commands[0]) && QueuedFrom(pieces[1..], commands[1..])
  }

  /** Cutting loses nothing and leaves no newline inside a piece. */
  lemma {:induction false} GluedPieces(s: string)
    ensures CutAt(s, Pieces(s))
  {
    if s != [] {
      GluedPieces(s[1..]);
      var r := Pieces(s[1..]);
      assert s == [s[0]] + s[1..];
      if s[0] == '\n' {
        assert Pieces(s)[1..] == r && "\n" == [s[0]];
      } else {
        assert Pieces(s)[1..] == r[1..];
        assert forall i :: 1 <= i < |Pieces(s)| ==> Pieces(s)[i] == r[i];
      }
    }
  }

  /** There is only one such cut. */
  lemma {:induction false} CutIsUnique(s: string, pieces: seq<string>)
    requires CutAt(s, pieces)
    ensures pieces == Pieces(s)
    decreases |pieces|
  {
    if |pieces| == 1 {
      PiecesOfTail(s);
    } else {
      var rest := pieces[1..];
      assert forall i :: 0 <= i < |rest| ==> rest[i] == pieces[i + 1];
      CutIsUnique(Glued(rest), rest);
      PiecesOfLine(pieces[0], Glued(rest));
      assert s == pieces[0] + [NEWLINE] + Glued(rest);
    }
  }

  lemma {:induction false} LeftPart(s: string) returns (i: nat)
    ensures i <= |s| && AllBlank(s[..i]) && LeftTrim(s) == s[i..] && (i < |s| ==> s[i] != '\n' && s[i] != ' ')
  {
    i := 0;
    if s != [] && IsTrim(s[0]) {
      var k := LeftPart(s[1..]);
      i := k + 1;
      assert s[..i] == [s[0]] + s[1..][..k];
    }
  }

  lemma {:induction false} RightEnd(s: string) returns (j: nat)
    ensures j <= |s| && AllBlank(s[j..]) && RightTrim(s) == s[..j]
    ensures j > 0 ==> s[j - 1] != '\n' && s[j - 1] != ' '
  {
    j := |s|;
    if s != [] && IsTrim(s[|s| - 1]) {
      j := RightEnd(s[..|s| - 1]);
      assert s[j..] == s[..|s| - 1][j..] + [s[|s| - 1]];
    }
  }

  lemma CommandOfPiece(piece: string)
    ensures Trim(piece) == [] <==> AllBlank(piece)
    ensures Trim(piece) != [] ==> CommandOf(piece, Trim(piece))
  {
    var i := LeftPart(piece);
    var rest := piece[i..];
    var j := RightEnd(rest);
    assert Trim(piece) == rest[..j] == piece[i..i + j];
    assert rest[j..] == piece[i + j..];
    if i < |piece| {
      assert rest[0] == piece[i];
      assert rest[0..] == rest && !AllBlank(rest);
      assert piece[i + j - 1] == rest[j - 1];
      assert PartOf(piece, i, i + j, Trim(piece));
    } else {
      assert piece[..i] == piece;
    }
  }

  lemma {:induction false} CommandsQueued(pieces: seq<string>)
    ensures QueuedFrom(pieces, Commands(pieces))
    ensures forall c :: c in Commands(pieces) ==> Clean(c)
  {
    if pieces != [] {
      CommandOfPiece(pieces[0]);
      CommandsQueued(pieces[1..]);
      if Trim(pieces[0]) == [] {
        assert Commands(pieces) == Commands(pieces[1..]);
      } else {
        assert Commands(pieces)[0] == Trim(pieces[0]) && Commands(pieces)[1..] == Commands(pieces[1..]);
      }
    }
  }

  /** What is delivered of a stream: the commands of its nonblank pieces. */
  lemma DeliveredIs(s: string)
    ensures CutAt(s, Pieces(s)) && QueuedFrom(Pieces(s), Delivered(s))
    ensures forall c :: c in Delivered(s) ==> Clean(c)
  {
    GluedPieces(s);
    CommandsQueued(Pieces(s));
  }
}
