/** The robot's line reader: a stream that arrives in arbitrary chunks, a buffer, and a cache
    that carries what follows a newline over to the next call. */
module LineReader {
  import opened Lines

  /** The connection: `rest` is what the peer will still send before closing. The next reads get
      chunks of the sizes of `script`, as far as it goes; any further ones get any size. */
  class Socket {
    var rest: string
    var script: seq<nat>

    constructor (stream: string, sizes: seq<nat>)
      ensures rest == stream && script == sizes
    {
      rest, script := stream, sizes;
    }

    /** Every read will get one byte. */
    ghost predicate Bytewise()
      reads this
    {
      |script| >= |rest| && forall k :: 0 <= k < |script| ==> script[k] == 1
    }

    /** Every read will get one line, if it takes that many bytes. */
    ghost predicate Linewise()
      reads this
    {
      script == LineSizes(rest)
    }

    /** Some nonempty prefix of at most `limit` bytes, or nothing at the end of the stream. */
    method Read(limit: nat) returns (chunk: string)
      requires limit > 0
      modifies this
      ensures chunk + rest == old(rest) && |chunk| <= limit
      ensures chunk == [] <==> old(rest) == []
      ensures chunk == [] ==> script == old(script)
      ensures chunk != [] && old(script) != [] ==>
                script == old(script)[1..] && |chunk| == Min(Max(old(script)[0], 1), Min(limit, |old(rest)|))
      ensures old(Bytewise()) ==> Bytewise() && |chunk| <= 1
    {
      if rest == [] { return []; }
      var n: nat :| 1 <= n <= limit && n <= |rest|;
      if script != [] {
        n := Min(Max(script[0], 1), Min(limit, |rest|));
        script := script[1..];
      }
      chunk := rest[..n];
      rest := rest[n..];
    }
  }

  // ----- C strings in arrays

  /** From `from` on the array holds the text `s` and its terminator. */
  ghost predicate Holds(a: array<char>, from: nat, s: string)
    reads a
  {
    from + |s| < a.Length && a[from..from + |s|] == s && a[from + |s|] == NUL && NUL !in s
  }

  lemma HoldsAt(a: array<char>, from: nat, s: string)
    requires Holds(a, from, s)
    ensures forall k :: 0 <= k < |s| ==> a[from + k] == s[k] && s[k] != NUL
  {
    forall k | 0 <= k < |s| ensures a[from + k] == s[k] && s[k] != NUL {
      assert a[from..from + |s|][k] == a[from + k];
    }
  }

  /** Position of the first newline before the terminator, or -1. */
  method FindNewline(a: array<char>, from: nat, ghost s: string) returns (at: int)
    requires Holds(a, from, s)
    ensures at == -1 ==> NEWLINE !in s
    ensures at != -1 ==> from <= at < from + |s| && s[at - from] == NEWLINE && NEWLINE !in s[..at - from]
  {
    HoldsAt(a, from, s);
    var i := 0;
    while a[from + i] != NUL
      invariant 0 <= i <= |s| && NEWLINE !in s[..i]
      decreases |s| - i
    {
      if a[from + i] == NEWLINE { return from + i; }
      assert s[..i + 1] == s[..i] + [s[i]];
      i := i + 1;
    }
    assert s[..|s|] == s;
    at := -1;
  }

  method StrLen(a: array<char>, from: nat, ghost s: string) returns (len: nat)
    requires Holds(a, from, s)
    ensures len == |s|
  {
    HoldsAt(a, from, s);
    len := 0;
    while a[from + len] != NUL
      invariant len <= |s|
      decreases |s| - len
    {
      len := len + 1;
    }
  }

  /** Strips newlines and blanks at both ends, in place; the text then starts at `start`. */
  method TrimInPlace(a: array<char>, ghost s: string) returns (start: nat)
    requires Holds(a, 0, s)
    modifies a
    ensures Holds(a, start, Trim(s))
  {
    var len := StrLen(a, 0, s);
    start := TrimStart(a, s);
    TrimEnd(a, start, len, s);
  }

  method TrimStart(a: array<char>, ghost s: string) returns (start: nat)
    requires Holds(a, 0, s)
    ensures start <= |s| && (forall k :: 0 <= k < start ==> IsTrim(s[k])) && (start < |s| ==> !IsTrim(s[start]))
  {
    HoldsAt(a, 0, s);
    start := 0;
    while IsTrim(a[start])
      invariant start <= |s| && forall k :: 0 <= k < start ==> IsTrim(s[k])
      decreases |s| - start
    {
      start := start + 1;
    }
  }

  method TrimEnd(a: array<char>, start: nat, len: nat, ghost s: string)
    requires Holds(a, 0, s) && len == |s| && start <= len
    requires (forall k :: 0 <= k < start ==> IsTrim(s[k])) && (start < len ==> !IsTrim(s[start]))
    modifies a
    ensures Holds(a, start, Trim(s))
  {
    HoldsAt(a, 0, s);
    if start == len {
      TrimIs(s, start, len);
      return;
    }
    var end := CutBlanks(a, start, len, s);
    TrimIs(s, start, end);
    assert a[start..end] == s[start..end];
  }

  method CutBlanks(a: array<char>, start: nat, len: nat, ghost s: string) returns (end: nat)
    requires start < len == |s| < a.Length && !IsTrim(s[start]) && a[len] == NUL
    requires forall k :: 0 <= k < len ==> a[k] == s[k] && s[k] != NUL
    modifies a
    ensures start < end <= len && a[end] == NUL && !IsTrim(s[end - 1])
    ensures forall k :: 0 <= k < end ==> a[k] == s[k] && s[k] != NUL
    ensures forall k :: end <= k < len ==> IsTrim(s[k])
  {
    var endp := len - 1;
    while endp > start && IsTrim(a[endp])
      invariant start <= endp < len && a[endp + 1] == NUL
      invariant forall k :: 0 <= k <= endp ==> a[k] == s[k] && s[k] != NUL
      invariant forall k :: endp < k < len ==> IsTrim(s[k])
    {
      a[endp] := NUL;
      endp := endp - 1;
    }
    end := endp + 1;
  }

  class Robot {
    const cache: array<char>
    const max: nat
    const sock: Socket
    var cacheLen: nat
    var cmdList: seq<string>

    ghost predicate Valid()
      reads this, cache, sock
    {
      && max >= 2 && cache.Length == max + 1 && cacheLen < max
      && NUL !in Pending()
    }

    /** What has been received or will be, and not been returned yet. */
    ghost function Pending(): string
      requires cacheLen <= cache.Length
      reads this, cache, sock
    {
      cache[..cacheLen] + sock.rest
    }

    /** Every read gets one byte: nothing is ever cached. */
    ghost predicate Bytewise()
      reads this, sock
    {
      cacheLen == 0 && sock.Bytewise()
    }

    /** Every read gets one line. */
    ghost predicate Linewise()
      reads this, sock
    {
      cacheLen == 0 && sock.Linewise()
    }

    /** The longest line that can be read. */
    ghost function Most(): int
      reads this, sock
    {
      if Bytewise() then max - 2 else max - 1
    }

    constructor (size: nat, socket: Socket)
      requires size >= 2 && NUL !in socket.rest
      ensures Valid() && Pending() == socket.rest && cmdList == [] && max == size && sock == socket && fresh(cache)
      ensures cacheLen == 0
    {
      cache := new char[size + 1](_ => NUL);
      max, sock, cacheLen, cmdList := size, socket, 0, [];
    }

    /** Reads up to the next newline: from the cache if it holds one, else on from the socket. Leading
        empty lines in the cache are skipped. 0 means the end of the stream, -2 a line too long. */
    method ReadLine(buffer: array<char>) returns (ret: int)
      requires Valid() && buffer.Length > max && buffer != cache
      modifies this`cacheLen, cache, buffer, sock
      ensures ret == -2 || 0 <= ret <= max
      ensures ret == -2 ==> LongestPiece(old(Pending())) >= max - 1
      ensures ret >= 0 ==> Valid() && NUL !in buffer[..ret]
      ensures ret >= 0 ==> OneLineFewer(old(Pending()), buffer[..ret], Pending(), old(Most()), max - 2)
      ensures ret >= 0 ==>
                || AfterNewlines(old(Pending()), buffer[..ret] + Pending())
                || (old(cacheLen) > 0 && AfterNewlines(old(Pending()), buffer[..ret] + [NEWLINE] + Pending()))
      ensures ret >= 0 ==> (old(Bytewise()) ==> Bytewise()) && (old(Linewise()) ==> Linewise())
      ensures ret == -2 && old(Linewise()) ==>
                LongestPiece(old(Pending())) >= max || LastPiece(old(Pending())) >= max - 1
    {
      ghost var p := Pending();
      var found, total := false, 0;
      if cacheLen > 0 {
        found, total := TakeCached(buffer);
      } else {
        assert cache[..0] + sock.rest == buffer[..0] + sock.rest == sock.rest;
      }
      if found {
        DeliveredLine(buffer[..total], Pending());
        return total;
      }
      ret := ReadOn(buffer, total);
    }

    /** The cache part: the next nonempty cached line, or all of the cache moved to the buffer. */
    method TakeCached(buffer: array<char>) returns (found: bool, total: nat)
      requires Valid() && buffer.Length > max && buffer != cache
      modifies this`cacheLen, cache, buffer
      ensures Valid() && total < max && NEWLINE !in buffer[..total] && NUL !in buffer[..total]
      ensures found ==> total > 0 && SkippedTo(old(Pending()), buffer[..total] + [NEWLINE] + Pending())
      ensures !found ==> cacheLen == 0 && SkippedTo(old(Pending()), buffer[..total] + sock.rest)
    {
      ghost var p := Pending();
      cache[cacheLen] := NUL;
      assert Pending() == p;
      var at := 0;
      while at == 0
        invariant Valid() && Holds(cache, 0, cache[..cacheLen]) && -1 <= at < max
        invariant at == 0 ==> SkippedTo(p, Pending())
        invariant at > 0 ==> SkippedTo(p, buffer[..at] + [NEWLINE] + Pending())
        invariant at > 0 ==> NEWLINE !in buffer[..at] && NUL !in buffer[..at]
        invariant at < 0 ==> SkippedTo(p, Pending()) && NEWLINE !in cache[..cacheLen]
        decreases if at == 0 then cacheLen + 1 else 0
      {
        at := CutLine(buffer, p);
      }
      if at > 0 { return true, at; }
      total := MoveCache(buffer);
      found := false;
    }

    /** The next line of the cache, empty ones included; -1 when there is no newline left. */
    method CutLine(buffer: array<char>, ghost p: string) returns (at: int)
      requires Valid() && buffer.Length > max && buffer != cache
      requires Holds(cache, 0, cache[..cacheLen]) && SkippedTo(p, Pending())
      modifies this`cacheLen, cache, buffer
      ensures Valid() && Holds(cache, 0, cache[..cacheLen]) && -1 <= at < max
      ensures at == 0 ==> SkippedTo(p, Pending()) && cacheLen < old(cacheLen)
      ensures at > 0 ==> SkippedTo(p, buffer[..at] + [NEWLINE] + Pending())
      ensures at > 0 ==> NEWLINE !in buffer[..at] && NUL !in buffer[..at]
      ensures at < 0 ==> SkippedTo(p, Pending()) && NEWLINE !in cache[..cacheLen]
    {
      ghost var s := cache[..cacheLen];
      at := FindNewline(cache, 0, s);
      if at == -1 { return; }
      SkipOrTake(p, s, at, sock.rest);
      CutCache(buffer, at);
      assert cache[..cacheLen] == s[at + 1..] && buffer[..at] == s[..at];
      assert at == 0 ==> s[at + 1..] == s[1..];
    }

    /** Copies the first `at` bytes out and moves what follows the newline to the front. */
    method CutCache(buffer: array<char>, at: nat)
      requires cacheLen < max < buffer.Length && cache.Length == max + 1 && at < cacheLen && buffer != cache
      modifies this`cacheLen, cache, buffer
      ensures cacheLen == old(cacheLen) - at - 1
      ensures cache[..cacheLen] == old(cache[..cacheLen])[at + 1..] && cache[cacheLen] == NUL
      ensures buffer[..at] == old(cache[..at])
    {
      forall i | 0 <= i < at { buffer[i] := cache[i]; }
      var left := cacheLen - at - 1;
      forall i | 0 <= i < left { cache[i] := cache[at + 1 + i]; }
      cacheLen := left;
      buffer[at] := NUL;
      cache[cacheLen] := NUL;
    }

    method MoveCache(buffer: array<char>) returns (total: nat)
      requires cacheLen < max < buffer.Length && cache.Length == max + 1 && buffer != cache
      modifies this`cacheLen, buffer
      ensures total == old(cacheLen) && cacheLen == 0 && buffer[..total] == old(cache[..cacheLen])
    {
      forall i | 0 <= i < cacheLen { buffer[i] := cache[i]; }
      total := cacheLen;
      cacheLen := 0;
      buffer[total] := NUL;
    }

    /** The socket part: reads until a newline comes, the stream ends or the buffer is full. What is
        returned without a newline has less than max - 1 bytes. */
    method ReadOn(buffer: array<char>, have: nat) returns (total: int)
      requires Valid() && buffer.Length > max && buffer != cache && cacheLen == 0 && have < max
      requires NEWLINE !in buffer[..have] && NUL !in buffer[..have]
      modifies this`cacheLen, cache, buffer, sock
      ensures total == -2 || 0 <= total <= max
      ensures total == -2 ==> LongestPiece(old(buffer[..have] + sock.rest)) >= max - 1
      ensures total >= 0 ==> Valid() && NUL !in buffer[..total]
      ensures total >= 0 && NEWLINE !in buffer[..total] ==> total < max - 1
      ensures total >= 0 ==> buffer[..total] + Pending() == old(buffer[..have] + sock.rest)
      ensures total >= 0 ==>
                OneLineFewer(old(buffer[..have] + sock.rest), buffer[..total], Pending(), old(Most()), max - 2)
      ensures total >= 0 && old(Bytewise()) ==> Bytewise()
      ensures total >= 0 && have == 0 && old(Linewise()) ==> Linewise()
      ensures total == -2 && have == 0 && old(Linewise()) ==>
                LongestPiece(old(sock.rest)) >= max || LastPiece(old(sock.rest)) >= max - 1
    {
      ghost var p := buffer[..have] + sock.rest;
      var ptr, end := have, max - 1;
      total := have;
      while ptr < end && total < max
        invariant 0 <= ptr == total <= max && cacheLen == 0 && Valid()
        invariant buffer[..total] + sock.rest == p
        invariant NEWLINE !in buffer[..total] && NUL !in buffer[..total]
        invariant old(Bytewise()) ==> Bytewise()
        invariant have == 0 && old(Linewise()) ==> (total == 0 && Linewise()) || Stuck(p, total)
        decreases |sock.rest|
      {
        assert total == 0 ==> p == sock.rest;
        var done;
        done, total := ReadMore(buffer, ptr);
        if done { return; }
        ptr := total;
      }
      FirstPieceIsLong(buffer[..total], sock.rest);
      if sock.rest == [] {
        assert p == buffer[..total];
        DeliveredTail(p);
      }
      if have == 0 { assert p == old(sock.rest); }
      total := -2;
    }

    /** A whole chunk without newline has come: its line is too long, or the stream has ended. */
    ghost predicate Stuck(p: string, total: int)
      reads this, sock
    {
      (total == max && LongestPiece(p) >= max) || (sock.rest == [] && sock.script == [])
    }

    /** One round of it: done at the end of the stream or with a newline, else the line has grown. */
    method ReadMore(buffer: array<char>, have: nat) returns (done: bool, total: nat)
      requires Valid() && buffer.Length > max && buffer != cache && cacheLen == 0 && have < max - 1
      requires NEWLINE !in buffer[..have] && NUL !in buffer[..have]
      modifies this`cacheLen, cache, buffer, sock
      ensures Valid() && total <= max && NUL !in buffer[..total]
      ensures done ==> NEWLINE in buffer[..total] || total < max - 1
      ensures done ==> buffer[..total] + Pending() == old(buffer[..have] + sock.rest)
      ensures done ==>
                OneLineFewer(old(buffer[..have] + sock.rest), buffer[..total], Pending(), old(Most()), max - 2)
      ensures !done ==> cacheLen == 0 && NEWLINE !in buffer[..total] && |sock.rest| < |old(sock.rest)|
      ensures !done ==> buffer[..total] + sock.rest == old(buffer[..have] + sock.rest)
      ensures old(Bytewise()) ==> Bytewise()
      ensures have == 0 && old(Linewise()) ==> if done then Linewise() else Stuck(old(sock.rest), total)
      ensures old(sock.rest == [] && sock.script == []) ==> done && Linewise()
    {
      ghost var line, most, script, linewise := buffer[..have], Most(), sock.script, have == 0 && Linewise();
      var n;
      ghost var chunk;
      n, chunk := ReadChunk(buffer, have);
      if n == 0 {
        LastLine(line, most, max - 2);
        assert line + [] == line;
        return true, have;
      }
      LineGrows(line, chunk, sock.rest);
      if linewise { LineChunk(chunk, sock.rest, script, max); }
      done, total := UseChunk(buffer, have, n, line, chunk, most);
    }

    /** A nonempty chunk has come behind the line read so far: it ends the line, or makes it longer. */
    method UseChunk(buffer: array<char>, have: nat, n: nat, ghost line: string, ghost chunk: string, ghost most: int)
      returns (done: bool, total: nat)
      requires Valid() && max < buffer.Length && buffer != cache && cacheLen == 0
      requires 0 < n == |chunk| && have + n <= max && have + n - 1 <= most
      requires buffer[..have] == line && Holds(buffer, have, chunk) && NEWLINE !in line && NUL !in line
      modifies this`cacheLen, cache, buffer
      ensures Valid() && total <= max && NUL !in buffer[..total] && (done <==> NEWLINE in chunk)
      ensures done ==> NEWLINE in buffer[..total] && buffer[..total] + Pending() == line + (chunk + sock.rest)
      ensures done ==> OneLineFewer(line + (chunk + sock.rest), buffer[..total], Pending(), most, max - 2)
      ensures NEWLINE !in chunk[..n - 1] ==> cacheLen == 0
      ensures !done ==> cacheLen == 0 && total == have + n && buffer[..total] == line + chunk
    {
      total := have + n;
      assert buffer[..total] == line + chunk;
      LineGrows(line, chunk, sock.rest);
      var linefeed := FindNewline(buffer, have, chunk);
      done := linefeed != -1;
      if done { total := EndLine(buffer, linefeed, total, line, chunk, most); }
    }

    /** A newline came: the line is complete, and what follows it goes to the cache. */
    method EndLine(buffer: array<char>, linefeed: nat, total: nat,
                   ghost line: string, ghost chunk: string, ghost most: int)
      returns (len: nat)
      requires Valid() && |line| <= linefeed < total <= max < buffer.Length && buffer != cache && linefeed <= most
      requires buffer[..total] == line + chunk && NEWLINE !in line && NUL !in line + chunk
      requires chunk[linefeed - |line|] == NEWLINE && NEWLINE !in chunk[..linefeed - |line|]
      modifies this`cacheLen, cache, buffer
      ensures Valid() && len == linefeed + 1 && NUL !in buffer[..len] && NEWLINE in buffer[..len]
      ensures OneLineFewer(line + (chunk + sock.rest), buffer[..len], Pending(), most, max - 2)
      ensures cacheLen == total - len && buffer[..len] + Pending() == line + (chunk + sock.rest)
    {
      ChunkEndsLine(line, chunk, linefeed - |line|, sock.rest, most, max - 2);
      assert buffer[..total][..linefeed + 1][linefeed] == NEWLINE;
      CarryOver(buffer, linefeed, total);
      len := linefeed + 1;
      NoNulInParts(line + chunk, len, sock.rest);
      BytesKept(line, chunk, len, sock.rest);
    }

    /** One read, appended to the buffer and terminated. */
    method ReadChunk(buffer: array<char>, ptr: nat) returns (n: nat, ghost chunk: string)
      requires ptr < max < buffer.Length && NUL !in sock.rest
      modifies buffer, sock
      ensures n == |chunk| && chunk + sock.rest == old(sock.rest) && n <= max - ptr && (n == 0 ==> sock.rest == [])
      ensures n == 0 ==> sock.script == old(sock.script)
      ensures n != 0 && old(sock.script) != [] ==>
                sock.script == old(sock.script)[1..]
                && n == Min(Max(old(sock.script)[0], 1), Min(max - ptr, |old(sock.rest)|))
      ensures old(sock.Bytewise()) ==> sock.Bytewise() && n <= 1
      ensures buffer[..ptr] == old(buffer[..ptr]) && Holds(buffer, ptr, chunk) && NUL !in sock.rest
    {
      ghost var rest := sock.rest;
      var got := sock.Read(max - ptr);
      n, chunk := |got|, got;
      assert forall c :: c in got || c in sock.rest ==> c in rest;
      forall i | 0 <= i < n { buffer[ptr + i] := got[i]; }
      buffer[ptr + n] := NUL;
    }

    /** Stores what follows the newline in the cache and ends the buffer behind the newline. */
    method CarryOver(buffer: array<char>, linefeed: nat, total: nat)
      requires linefeed < total <= max < buffer.Length && cache.Length == max + 1 && buffer != cache
      modifies this`cacheLen, cache, buffer
      ensures cacheLen == total - (linefeed + 1) && cache[..cacheLen] == old(buffer[..total])[linefeed + 1..]
      ensures buffer[..linefeed + 1] == old(buffer[..total])[..linefeed + 1]
    {
      cacheLen := total - (linefeed + 1);
      forall i | 0 <= i < cacheLen { cache[i] := buffer[linefeed + 1 + i]; }
      cache[cacheLen] := NUL;
      buffer[total - cacheLen] := NUL;
    }

    /** Trims one line and queues it, unless nothing is left of it. */
    method Deliver(buffer: array<char>, ret: nat)
      requires ret < buffer.Length && NUL !in buffer[..ret] && buffer != cache
      modifies this`cmdList, buffer
      ensures cmdList == old(cmdList) + old(One(buffer[..ret]))
    {
      ghost var line := buffer[..ret];
      buffer[ret] := NUL;
      var start := TrimInPlace(buffer, line);
      var len := StrLen(buffer, start, Trim(line));
      if len == 0 { return; }
      cmdList := cmdList + [buffer[start..start + len]];
    }

    /** The delivery loop: reads lines until the stream ends (true) or one is too long (false). */
    method NetLoop(buffer: array<char>) returns (ok: bool)
      requires Valid() && buffer.Length > max && buffer != cache
      modifies this`cacheLen, this`cmdList, cache, buffer, sock
      ensures ok ==> cmdList == old(cmdList) + Delivered(old(Pending())) && Valid() && Pending() == []
      ensures ok ==> LongestPiece(old(Pending())) < max && LastPiece(old(Pending())) < max - 1
      ensures old(cmdList) <= cmdList <= old(cmdList) + Delivered(old(Pending()))
      ensures ok ==> exists pieces :: CutAt(old(Pending()), pieces) && QueuedFrom(pieces, cmdList[|old(cmdList)|..])
      ensures forall k :: |old(cmdList)| <= k < |cmdList| ==> Clean(cmdList[k])
      ensures !ok ==> LongestPiece(old(Pending())) >= max - 1
      ensures old(Bytewise()) ==> (ok <==> LongestPiece(old(Pending())) < max - 1)
      ensures old(Linewise()) ==> (ok <==> LongestPiece(old(Pending())) < max && LastPiece(old(Pending())) < max - 1)
    {
      ghost var left;
      ghost var p, cmds := Pending(), cmdList;
      ok, left := ReadAll(buffer);
      NothingLeft();
      DeliveredIs(p);
      PartOfAll(cmds, Delivered(p), cmdList, Delivered(left));
    }

    /** The loop itself; `left` is what it has not delivered. */
    method ReadAll(buffer: array<char>) returns (ok: bool, ghost left: string)
      requires Valid() && buffer.Length > max && buffer != cache
      modifies this`cacheLen, this`cmdList, cache, buffer, sock
      ensures Owed(old(Pending()), old(cmdList), left, cmdList, old(Most()), max - 2) && old(cmdList) <= cmdList
      ensures ok ==> Valid() && Pending() == left == []
      ensures !ok ==> LongestPiece(left) >= max - 1
      ensures !ok && old(Linewise()) ==> LongestPiece(left) >= max || LastPiece(left) >= max - 1
    {
      ghost var p, cmds, most := Pending(), cmdList, Most();
      while true
        invariant Valid() && Owed(p, cmds, Pending(), cmdList, most, max - 2) && cmds <= cmdList
        invariant (old(Bytewise()) ==> Bytewise()) && (old(Linewise()) ==> Linewise())
        decreases |Pending()|
      {
        buffer[0] := NUL;
        left := Pending();
        ghost var most1 := Most();
        var ret := ReadLine(buffer);
        if ret == -2 { return false, left; }
        OwedAfterLine(p, cmds, left, cmdList, buffer[..ret], Pending(), most1, most, max - 2);
        if ret <= 0 { return true, []; }
        Deliver(buffer, ret);
      }
    }
  }

  /** A stream read to its end. Lines of at most size - 2 bytes are read however the stream arrives, and
      only those when it comes byte by byte. Lines of size - 1 bytes can be read when the chunks end
      where the lines end, but never as an unterminated last line, and longer ones never. */
  method ReadStream(stream: string, sizes: seq<nat>, size: nat) returns (ok: bool, commands: seq<string>)
    requires size >= 2 && '\0' !in stream
    ensures ok ==> commands == Delivered(stream) && LongestPiece(stream) < size && LastPiece(stream) < size - 1
    ensures commands <= Delivered(stream)
    ensures ok ==> exists pieces :: CutAt(stream, pieces) && QueuedFrom(pieces, commands)
    ensures forall c :: c in commands ==> Clean(c)
    ensures LongestPiece(stream) < size - 1 ==> ok
    ensures sizes == ByteSizes(stream) ==> (ok <==> LongestPiece(stream) < size - 1)
    ensures sizes == LineSizes(stream) ==> (ok <==> LongestPiece(stream) < size && LastPiece(stream) < size - 1)
  {
    var socket := new Socket(stream, sizes);
    var robot := new Robot(size, socket);
    var buffer := new char[size + 1];
    ok := robot.NetLoop(buffer);
    commands := robot.cmdList;
    DeliveredIs(stream);
  }
}
