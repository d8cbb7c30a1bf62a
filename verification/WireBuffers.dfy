/** The buffers behind the request format: the client's output buffer, the
    server's read buffer and the decoding of fields inside it. */
module WireBuffers {
  import opened Wire

  const RBUF_SIZE: nat := 8192
  const CMD_MAX: nat := 4096

  /** `ScanField` of what stands in `s` from `i` on. */
  function ScanAt(s: string, i: nat): Scan
    decreases |s| - i
  {
    if i >= |s| then Broken
    else if s[i] == ' ' || s[i] == NUL then Field("", 1)
    else if s[i] == '\\' then
      if i == |s| - 1 then Broken else Extend([s[i + 1]], 2, ScanAt(s, i + 2))
    else Extend([s[i]], 1, ScanAt(s, i + 1))
  }

  lemma {:induction false} ScanAtIsScan(s: string, i: nat)
    requires i <= |s|
    ensures ScanAt(s, i) == ScanField(s[i..])
    decreases |s| - i
  {
    if i < |s| {
      assert s[i..][1..] == s[i + 1..];
      ScanAtIsScan(s, i + 1);
      if i + 1 < |s| {
        assert s[i..][2..] == s[i + 2..];
        ScanAtIsScan(s, i + 2);
      }
    }
  }

  lemma ScanAtStart(s: string)
    ensures ScanAt(s, 0) == ScanField(s)
  {
    ScanAtIsScan(s, 0);
    assert s[0..] == s;
  }

  lemma ExtendTwice(p: string, m: nat, c: char, n: nat, r: Scan)
    ensures Extend(p, m, Extend([c], n, r)) == Extend(p + [c], m + n, r)
  {
    if r.Field? {
      assert p + ([c] + r.text) == p + [c] + r.text;
    }
  }

  /** The characters of `s` stand in the buffer from `start` on. */
  ghost predicate Holds(buf: array<char>, start: nat, s: string)
    reads buf
  {
    start + |s| <= buf.Length && forall i {:trigger s[i]} :: 0 <= i < |s| ==> buf[start + i] == s[i]
  }

  /** buffer_get_field on the `size` characters `s` from `start` on: the field is
      unescaped in place and ends with a NUL.  Nothing behind the characters it
      used changes. */
  method GetField(buf: array<char>, start: nat, size: nat, ghost s: string)
    returns (ok: bool, len: nat, used: nat, ghost text: string)
    requires |s| == size && Holds(buf, start, s) && (size > 0 ==> buf[start + size - 1] == NUL)
    modifies buf
    ensures ok ==> ScanAt(s, 0) == Field(text, used) && |text| == len < used <= size
    ensures ok ==> Holds(buf, start, text) && buf[start + len] == NUL
    ensures !ok ==> ScanAt(s, 0) == Broken
    ensures forall i :: 0 <= i < start || start + size <= i < buf.Length ==> buf[i] == old(buf[i])
    ensures ok ==> forall i :: start + used <= i < buf.Length ==> buf[i] == old(buf[i])
    ensures size > 0 ==> buf[start + size - 1] == NUL
  {
    var pos := 0;
    len, text := 0, "";
    while pos < size
      invariant |text| == len <= pos <= size && (0 < pos == size ==> len < pos)
      invariant forall i :: 0 <= i < start || start + pos <= i < buf.Length ==> buf[i] == old(buf[i])
      invariant size > 0 ==> buf[start + size - 1] == NUL
      invariant Holds(buf, start, text)
      invariant ScanAt(s, 0) == Extend(text, pos, ScanAt(s, pos))
    {
      var c := buf[start + pos];
      assert c == s[pos];
      if c == ' ' || c == NUL {
        buf[start + len] := NUL;
        return true, len, pos + 1, text;
      } else if c == '\\' {
        if pos >= size - 1 {
          break;
        }
        pos := pos + 1;
        assert buf[start + pos] == s[pos];
        buf[start + len] := buf[start + pos];
        ExtendTwice(text, pos - 1, s[pos], 2, ScanAt(s, pos + 1));
        text := text + [s[pos]];
      } else {
        buf[start + len] := c;
        ExtendTwice(text, pos, c, 1, ScanAt(s, pos + 1));
        text := text + [c];
      }
      len := len + 1;
      pos := pos + 1;
    }
    return false, len, pos, text;
  }

  lemma FieldsStep(fields: seq<string>, line: string)
    ensures var r := ScanField(line);
            fields + Fields(line) == if r.Broken? then fields else fields + [r.text] + Fields(line[r.used..])
  {
  }

  /** One buffer_get_field, with the field read out of the buffer. */
  method NextField(buf: array<char>, start: nat, size: nat, ghost s: string)
    returns (ok: bool, field: string, used: nat)
    requires |s| == size && Holds(buf, start, s) && (size > 0 ==> buf[start + size - 1] == NUL)
    modifies buf
    ensures ok == ScanField(s).Field?
    ensures ok ==> ScanField(s) == Field(field, used) && Holds(buf, start + used, s[used..])
    ensures forall i :: 0 <= i < start || start + size <= i < buf.Length ==> buf[i] == old(buf[i])
    ensures size > 0 ==> buf[start + size - 1] == NUL
  {
    ScanAtStart(s);
    HoldsTail(buf, start, s);
    var len: nat;
    ghost var text: string;
    ok, len, used, text := GetField(buf, start, size, s);
    field := "";
    if ok {
      field := buf[start..start + len];
      assert field == text;
    }
  }

  lemma HoldsTail(buf: array<char>, start: nat, s: string)
    requires Holds(buf, start, s)
    ensures forall n :: 0 <= n <= |s| ==> Holds(buf, start + n, s[n..])
  {
  }

  /** All fields of a line, one buffer_get_field after the other. */
  method DecodeLine(buf: array<char>, start: nat, size: nat, ghost s: string) returns (fields: seq<string>)
    requires |s| == size > 0 && Holds(buf, start, s) && buf[start + size - 1] == NUL
    modifies buf
    ensures fields == Fields(s)
    ensures forall i :: 0 <= i < start || start + size <= i < buf.Length ==> buf[i] == old(buf[i])
    ensures buf[start + size - 1] == NUL
  {
    fields := [];
    var pos := 0;
    ghost var line, goal := s, Fields(s);
    while pos < size
      invariant pos <= size && |line| == size - pos && Holds(buf, start + pos, line)
      invariant forall i :: 0 <= i < start || start + size <= i < buf.Length ==> buf[i] == old(buf[i])
      invariant buf[start + size - 1] == NUL
      invariant goal == fields + Fields(line)
    {
      FieldsStep(fields, line);
      var ok, field, used := NextField(buf, start + pos, size - pos, line);
      if !ok {
        return;
      }
      fields := fields + [field];
      line := line[used..];
      pos := pos + used;
    }
  }

  /** A connection's read buffer. */
  class ReadBuffer {
    const rbuf: array<char>
    var nextCmd: nat
    var nextRead: nat
    ghost var pending: string   // the bytes between the two positions

    constructor ()
      ensures Valid() && pending == "" && nextCmd == 0 && fresh(rbuf) && rbuf.Length == 8192
    {
      rbuf := new char[RBUF_SIZE];
      nextCmd, nextRead, pending := 0, 0, "";
    }

    ghost predicate Valid()
      reads this, rbuf
    {
      && rbuf.Length == RBUF_SIZE
      && nextCmd <= nextRead <= RBUF_SIZE && |pending| == nextRead - nextCmd
      && Holds(rbuf, nextCmd, pending)
      && (nextCmd > 0 ==> rbuf[nextCmd - 1] == NUL)
    }

    /** What `read` puts behind the bytes that are already there. */
    method Receive(chunk: string)
      requires Valid() && nextRead + |chunk| <= RBUF_SIZE
      modifies this`nextRead, this`pending, rbuf
      ensures Valid() && pending == old(pending) + chunk
    {
      var i := 0;
      while i < |chunk|
        invariant i <= |chunk| && Valid() && pending == old(pending) + chunk[..i]
        invariant nextRead == old(nextRead) + i
      {
        rbuf[nextRead] := chunk[i];
        nextRead := nextRead + 1;
        assert chunk[..i + 1] == chunk[..i] + [chunk[i]];
        pending := pending + [chunk[i]];
        i := i + 1;
      }
    }

    /** memchr for the newline. */
    method FindEol() returns (eol: nat)
      requires Valid()
      ensures if '\n' in pending then eol == Eol(pending) else eol == nextRead - nextCmd
    {
      eol := 0;
      while nextCmd + eol < nextRead && rbuf[nextCmd + eol] != '\n'
        invariant eol <= nextRead - nextCmd
        invariant forall j :: 0 <= j < eol ==> pending[j] != '\n'
      {
        assert pending[eol] == rbuf[nextCmd + eol];
        eol := eol + 1;
      }
      assert eol < |pending| ==> pending[eol] == '\n';
    }

    /** What is left of the input moves to the front of the buffer. */
    method MoveToFront()
      requires Valid()
      modifies this`nextCmd, this`nextRead, rbuf
      ensures Valid() && nextCmd == 0
    {
      var n := nextRead - nextCmd;
      forall i | 0 <= i < n {
        rbuf[i] := rbuf[nextCmd + i];
      }
      nextRead := n;
      nextCmd := 0;
    }

    /** The line that ends `eol` characters behind the read position: newline and
        carriage return become NUL. */
    method CutLine(eol: nat) returns (len: nat, ghost line: string)
      requires Valid() && eol < |pending|
      modifies this`nextCmd, this`pending, rbuf
      ensures Valid() && nextCmd == old(nextCmd) + eol + 1
      ensures line == Chomp(old(pending)[..eol]) && pending == old(pending)[eol + 1..]
      ensures |line| == len <= eol
      ensures Holds(rbuf, old(nextCmd), line) && rbuf[old(nextCmd) + len] == NUL
    {
      var cmd := nextCmd;
      line := pending[..eol];
      assert eol > 0 ==> rbuf[cmd + eol - 1] == line[eol - 1];
      assert forall i :: 0 <= i < eol ==> rbuf[cmd + i] == pending[i];
      rbuf[cmd + eol] := NUL;
      nextCmd := cmd + eol + 1;
      pending := pending[eol + 1..];
      len := eol;
      if cmd + eol > 0 && rbuf[cmd + eol - 1] == '\r' {
        len := eol - 1;
        rbuf[cmd + len] := NUL;
        line := line[..len];
      }
    }

    /** next_cmd: the next complete line, terminated by a NUL in the buffer. */
    method NextCmd() returns (found: bool, cmd: nat, len: nat, ghost line: string)
      requires Valid()
      modifies this`nextCmd, this`nextRead, this`pending, rbuf
      ensures Valid() && found == ('\n' in old(pending))
      ensures !found ==> pending == old(pending) && nextCmd == 0
      ensures found ==>
                && line == Chomp(old(pending)[..Eol(old(pending))])
                && pending == old(pending)[Eol(old(pending)) + 1..]
                && |line| == len && cmd + len < nextCmd
                && Holds(rbuf, cmd, line) && rbuf[cmd + len] == NUL
    {
      var eol := FindEol();
      cmd, len, line := nextCmd, 0, "";
      found := eol < nextRead - nextCmd;
      if !found {
        MoveToFront();
      } else {
        len, line := CutLine(eol);
      }
    }
  }

  // ----- the server's connection loop

  /** What handling one line adds to the requests handled so far. */
  lemma Progress(done: seq<seq<string>>, s: string)
    ensures '\n' !in s ==> done + Requests(s) == done && Rest(s) == s
    ensures '\n' in s ==>
              && done + Requests(s) == done + [Fields(Chomp(s[..Eol(s)]) + [NUL])] + Requests(s[Eol(s) + 1..])
              && Rest(s) == Rest(s[Eol(s) + 1..])
  {
    if '\n' in s {
      RequestsStep(s);
    }
  }

  /** Handles the next line: cuts it out and decodes its fields in the buffer. */
  method HandleLine(b: ReadBuffer) returns (found: bool, fields: seq<string>)
    requires b.Valid()
    modifies b, b.rbuf
    ensures b.Valid() && found == ('\n' in old(b.pending))
    ensures !found ==> b.pending == old(b.pending) && b.nextCmd == 0
    ensures found ==>
              && fields == Fields(Chomp(old(b.pending)[..Eol(old(b.pending))]) + [NUL])
              && b.pending == old(b.pending)[Eol(old(b.pending)) + 1..]
  {
    var cmd: nat, len: nat;
    ghost var line: string;
    found, cmd, len, line := b.NextCmd();
    fields := [];
    if found {
      fields := DecodeLine(b.rbuf, cmd, len + 1, line + [NUL]);
    }
  }

  /** The connection ends with a line without a complete first field, and with QUIT. */
  predicate Closes(fields: seq<string>) {
    fields == [] || Lower(fields[0]) == "quit"
  }

  /** Of the requests with a complete first field, QUIT in any mixture of cases ends the
      connection, and no other. */
  lemma ClosesIsQuit(fields: seq<string>)
    requires fields != []
    ensures var f := fields[0];
            Closes(fields)
            <==> && |f| == 4 && (f[0] == 'q' || f[0] == 'Q') && (f[1] == 'u' || f[1] == 'U')
                 && (f[2] == 'i' || f[2] == 'I') && (f[3] == 't' || f[3] == 'T')
  {
    var f := fields[0];
    var l := Lower(f);
    assert |"quit"| == 4 && "quit"[0] == 'q' && "quit"[1] == 'u' && "quit"[2] == 'i' && "quit"[3] == 't';
    if |f| == 4 {
      assert l == "quit" <==> l[0] == 'q' && l[1] == 'u' && l[2] == 'i' && l[3] == 't';
    }
  }

  predicate AnyCloses(requests: seq<seq<string>>) {
    exists i :: 0 <= i < |requests| && Closes(requests[i])
  }

  /** The requests up to the first one that ends the connection. */
  function Served(requests: seq<seq<string>>): seq<seq<string>> {
    if requests == [] then []
    else if Closes(requests[0]) then [requests[0]]
    else [requests[0]] + Served(requests[1..])
  }

  lemma {:induction false} ServedAppend(a: seq<seq<string>>, b: seq<seq<string>>)
    ensures Served(a + b) == if AnyCloses(a) then Served(a) else a + Served(b)
    ensures AnyCloses(a + b) <==> AnyCloses(a) || AnyCloses(b)
  {
    if a == [] {
      assert a + b == b;
    } else {
      var head, tail := a[0], a[1..];
      assert a == [head] + tail && (a + b)[0] == head && (a + b)[1..] == tail + b;
      ServedAppend(tail, b);
      ClosesFrom(head, tail);
      ClosesFrom(head, tail + b);
      assert a + b == [head] + (tail + b) && [head] + (tail + Served(b)) == a + Served(b);
    }
  }

  lemma ClosesFrom(head: seq<string>, tail: seq<seq<string>>)
    ensures AnyCloses([head] + tail) <==> Closes(head) || AnyCloses(tail)
  {
    var all := [head] + tail;
    assert all[0] == head && forall i :: 0 <= i < |tail| ==> all[i + 1] == tail[i];
    if AnyCloses(all) {
      var i :| 0 <= i < |all| && Closes(all[i]);
      assert i > 0 ==> tail[i - 1] == all[i];
    }
  }

  /** One more request is handled, and perhaps ends the connection. */
  lemma ServedNext(done: seq<seq<string>>, next: seq<string>, more: seq<seq<string>>)
    requires !AnyCloses(done)
    ensures Closes(next) ==> Served(done + [next] + more) == done + [next] && AnyCloses(done + [next] + more)
    ensures !Closes(next) ==> !AnyCloses(done + [next])
  {
    assert done + [next] + more == done + ([next] + more) && ([next] + more)[0] == next;
    ServedAppend(done, [next] + more);
    ServedAppend(done, [next]);
    ClosesFrom(next, more);
    ClosesFrom(next, []);
    assert [next] + [] == [next];
  }

  lemma ServedAll(requests: seq<seq<string>>)
    requires !AnyCloses(requests)
    ensures Served(requests) == requests
  {
    ServedAppend(requests, []);
    assert requests + [] == requests;
  }

  /** Handles the complete lines in the buffer, up to one that ends the connection;
      fields are decoded inside the buffer. */
  method Drain(b: ReadBuffer) returns (requests: seq<seq<string>>, closed: bool)
    requires b.Valid()
    modifies b, b.rbuf
    ensures b.Valid() && requests == Served(Requests(old(b.pending)))
    ensures closed == AnyCloses(Requests(old(b.pending)))
    ensures !closed ==> b.nextCmd == 0 && b.pending == Rest(old(b.pending))
    ensures !closed ==> requests == Requests(old(b.pending))
  {
    requests := [];
    ghost var all, rest := Requests(b.pending), Rest(b.pending);
    while true
      invariant b.Valid() && all == requests + Requests(b.pending) && rest == Rest(b.pending)
      invariant !AnyCloses(requests)
      decreases |b.pending|
    {
      Progress(requests, b.pending);
      var found, fields := HandleLine(b);
      if !found {
        ServedAll(all);
        return requests, false;
      }
      ServedNext(requests, fields, Requests(b.pending));
      requests := requests + [fields];
      if Closes(fields) {
        return requests, true;
      }
    }
  }

  function Flatten(chunks: seq<string>): string {
    if chunks == [] then "" else Flatten(chunks[..|chunks| - 1]) + chunks[|chunks| - 1]
  }

  /** Each read returns something, and no more than the buffer has room for
      behind the unfinished line. */
  ghost predicate Readable(chunks: seq<string>) {
    forall k :: 0 <= k < |chunks| ==>
      chunks[k] != "" && |Rest(Flatten(chunks[..k]))| + |chunks[k]| <= RBUF_SIZE
  }

  /** One read, and the lines that it completes. */
  method ServeChunk(b: ReadBuffer, chunk: string) returns (requests: seq<seq<string>>, closed: bool)
    requires b.Valid() && b.nextCmd == 0 && |b.pending| + |chunk| <= RBUF_SIZE
    modifies b, b.rbuf
    ensures b.Valid()
    ensures var all := Requests(old(b.pending) + chunk);
            requests == Served(all) && closed == AnyCloses(all) && (!closed ==> requests == all)
    ensures !closed ==> b.nextCmd == 0 && b.pending == Rest(old(b.pending) + chunk)
  {
    b.Receive(chunk);
    requests, closed := Drain(b);
  }

  /** However the stream is cut into reads, the requests are those of the stream, up
      to the first one that ends the connection. */
  method Serve(chunks: seq<string>) returns (requests: seq<seq<string>>)
    requires Readable(chunks)
    ensures requests == Served(Requests(Flatten(chunks)))
  {
    var b := new ReadBuffer();
    requests := [];
    ghost var seen := "";
    var k := 0;
    while k < |chunks|
      invariant k <= |chunks| && b.Valid() && fresh(b) && fresh(b.rbuf) && b.nextCmd == 0
      invariant seen == Flatten(chunks[..k]) && b.pending == Rest(seen) && requests == Requests(seen)
      invariant !AnyCloses(requests)
    {
      NextChunk(chunks, k);
      var more, closed := ServeChunk(b, chunks[k]);
      if closed {
        return requests + more;
      }
      ServedAppend(requests, more);
      requests := requests + more;
      seen := seen + chunks[k];
      k := k + 1;
    }
    assert chunks[..k] == chunks;
    ServedAll(requests);
  }

  /** What the next read adds to the requests. */
  lemma NextChunk(chunks: seq<string>, k: nat)
    requires k < |chunks|
    ensures var seen, more := Flatten(chunks[..k]), Requests(Rest(Flatten(chunks[..k])) + chunks[k]);
            && Flatten(chunks[..k + 1]) == seen + chunks[k]
            && Requests(seen + chunks[k]) == Requests(seen) + more
            && Rest(seen + chunks[k]) == Rest(Rest(seen) + chunks[k])
            && (!AnyCloses(Requests(seen)) && AnyCloses(more) ==>
                  Served(Requests(Flatten(chunks))) == Requests(seen) + Served(more))
  {
    var seen := Flatten(chunks[..k]);
    var more := Requests(Rest(seen) + chunks[k]);
    assert chunks[..k + 1][..k] == chunks[..k];
    RequestsOfRest(seen, chunks[k]);
    FlattenFrom(chunks, k + 1);
    var before, after := seen + chunks[k], Flatten(chunks[k + 1..]);
    RequestsOfRest(before, after);
    ServedAppend(Requests(seen), more);
    ServedAppend(Requests(before), Requests(Rest(before) + after));
  }

  lemma {:induction false} FlattenFrom(chunks: seq<string>, k: nat)
    requires k <= |chunks|
    ensures Flatten(chunks) == Flatten(chunks[..k]) + Flatten(chunks[k..])
    decreases |chunks|
  {
    var n := |chunks| - 1;
    if k == |chunks| {
      assert chunks[..k] == chunks && chunks[k..] == [];
    } else {
      FlattenFrom(chunks[..n], k);
      assert chunks[..n][..k] == chunks[..k] && chunks[..n][k..] == chunks[k..][..n - k];
      assert chunks[k..][n - k] == chunks[n];
    }
  }
}
