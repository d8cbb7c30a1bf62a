/** The request format of rrdcached: fields escaped by the client, lines framed
    in the server's read buffer and fields decoded there in place. */
module Wire {
  const NUL: char := '\0'

  // ----- escaping

  function EscapeChar(c: char): string {
    if c == ' ' || c == '\\' then ['\\', c] else [c]
  }

  function Escape(s: string): string {
    if s == "" then "" else EscapeChar(s[0]) + Escape(s[1..])
  }

  /** All fields, each followed by a blank. */
  function Encode(fields: seq<string>): string {
    if fields == [] then "" else Escape(fields[0]) + " " + Encode(fields[1..])
  }

  lemma {:induction false} EscapeAppend(s: string, t: string)
    ensures Escape(s + t) == Escape(s) + Escape(t)
  {
    if s == "" {
      assert s + t == t;
    } else {
      EscapeAppend(s[1..], t);
      assert (s + t)[0] == s[0] && (s + t)[1..] == s[1..] + t;
      Associate(EscapeChar(s[0]), Escape(s[1..]), Escape(t));
    }
  }

  lemma Associate<T>(a: seq<T>, b: seq<T>, c: seq<T>)
    ensures a + (b + c) == a + b + c
  {
  }

  lemma {:induction false} EncodeAppend(fs: seq<string>, gs: seq<string>)
    ensures Encode(fs + gs) == Encode(fs) + Encode(gs)
  {
    if fs == [] {
      assert fs + gs == gs;
    } else {
      var head, tail := Escape(fs[0]) + " ", fs[1..];
      assert (fs + gs)[0] == fs[0] && (fs + gs)[1..] == tail + gs;
      EncodeAppend(tail, gs);
      Associate(head, Encode(tail), Encode(gs));
    }
  }

  // ----- decoding

  /** A field and how many characters it took, or no complete field. */
  datatype Scan = Broken | Field(text: string, used: nat)

  function Extend(prefix: string, n: nat, r: Scan): Scan {
    if r.Broken? then Broken else Field(prefix + r.text, n + r.used)
  }

  /** One field: up to a blank or NUL, a backslash taking the next character as it is. */
  function ScanField(s: string): (r: Scan)
    ensures r.Field? ==> |r.text| < r.used <= |s|
  {
    if s == "" then Broken
    else if s[0] == ' ' || s[0] == NUL then Field("", 1)
    else if s[0] == '\\' then
      if |s| == 1 then Broken else Extend([s[1]], 2, ScanField(s[2..]))
    else Extend([s[0]], 1, ScanField(s[1..]))
  }

  /** Fields one after the other until the end or a broken one. */
  function Fields(s: string): seq<string>
    decreases |s|
  {
    var r := ScanField(s);
    if r.Broken? then [] else [r.text] + Fields(s[r.used..])
  }

  ghost predicate Plain(s: string) {
    NUL !in s
  }

  lemma {:induction false} ScanEscaped(f: string, end: char, rest: string)
    requires Plain(f) && (end == ' ' || end == NUL)
    ensures ScanField(Escape(f) + [end] + rest) == Field(f, |Escape(f)| + 1)
  {
    if f != "" {
      var tail := Escape(f[1..]) + [end] + rest;
      ScanEscaped(f[1..], end, rest);
      Associate(EscapeChar(f[0]), Escape(f[1..]), [end]);
      Associate(EscapeChar(f[0]), Escape(f[1..]) + [end], rest);
      ScanOne(f[0], tail);
      assert [f[0]] + f[1..] == f;
    }
  }

  lemma ScanOne(c: char, tail: string)
    requires c != NUL
    ensures ScanField(EscapeChar(c) + tail) == Extend([c], |EscapeChar(c)|, ScanField(tail))
  {
    var s := EscapeChar(c) + tail;
    if c == ' ' || c == '\\' {
      assert s[0] == '\\' && s[1] == c && s[2..] == tail;
    } else {
      assert s[0] == c && s[1..] == tail;
    }
  }

  /** Decoding undoes encoding, with a NUL in place of the last blank. */
  lemma {:induction false} FieldsOfEncoded(fs: seq<string>, last: string)
    requires (forall f :: f in fs ==> Plain(f)) && Plain(last)
    ensures Fields(Encode(fs) + Escape(last) + [NUL]) == fs + [last]
  {
    if fs == [] {
      assert Encode(fs) + Escape(last) + [NUL] == Escape(last) + [NUL] + "";
      FirstField(last, NUL, "");
      assert Fields("") == [];
    } else {
      var rest := Encode(fs[1..]) + Escape(last) + [NUL];
      Associate(Escape(fs[0]) + " ", Encode(fs[1..]), Escape(last));
      Associate(Escape(fs[0]) + " ", Encode(fs[1..]) + Escape(last), [NUL]);
      FirstField(fs[0], ' ', rest);
      FieldsOfEncoded(fs[1..], last);
      assert [fs[0]] + (fs[1..] + [last]) == fs + [last];
    }
  }

  lemma FirstField(f: string, end: char, rest: string)
    requires Plain(f) && (end == ' ' || end == NUL)
    ensures Fields(Escape(f) + [end] + rest) == [f] + Fields(rest)
  {
    ScanEscaped(f, end, rest);
    assert (Escape(f) + [end] + rest)[|Escape(f)| + 1..] == rest;
  }

  /** Letters as strcasecmp compares them. */
  function Lower(s: string): string {
    seq(|s|, i requires 0 <= i < |s| => if 'A' <= s[i] <= 'Z' then (s[i] as int + 32) as char else s[i])
  }

  // ----- lines

  /** One carriage return at the end of a line does not belong to it. */
  function Chomp(line: string): string {
    if line != "" && line[|line| - 1] == '\r' then line[..|line| - 1] else line
  }

  ghost predicate FirstEol(s: string, i: nat) {
    i < |s| && s[i] == '\n' && forall j :: 0 <= j < i ==> s[j] != '\n'
  }

  lemma SomeEol(s: string)
    requires '\n' in s
    ensures exists i: nat :: FirstEol(s, i)
  {
    var i := 0;
    while s[i] != '\n'
      invariant i < |s| && forall j :: 0 <= j < i ==> s[j] != '\n'
      decreases |s| - i
    {
      i := i + 1;
    }
    assert FirstEol(s, i);
  }

  /** Where the first newline is. */
  ghost function Eol(s: string): (i: nat)
    requires '\n' in s
    ensures FirstEol(s, i)
  {
    SomeEol(s);
    var i: nat :| FirstEol(s, i);
    i
  }

  /** The complete lines of a stream. */
  ghost function Lines(s: string): seq<string>
    decreases |s|
  {
    if '\n' in s then [Chomp(s[..Eol(s)])] + Lines(s[Eol(s) + 1..]) else []
  }

  /** What follows the last complete line. */
  ghost function Rest(s: string): string
    decreases |s|
  {
    if '\n' in s then Rest(s[Eol(s) + 1..]) else s
  }

  lemma {:induction false} LinesOfRest(s: string, t: string)
    ensures Lines(s + t) == Lines(s) + Lines(Rest(s) + t)
    ensures Rest(s + t) == Rest(Rest(s) + t)
    decreases |s|
  {
    if '\n' in s {
      var i := Eol(s);
      EolPrefix(s, t);
      var rest := s[i + 1..];
      assert (s + t)[..i] == s[..i] && (s + t)[i + 1..] == rest + t;
      FirstLine(s, i);
      FirstLine(s + t, i);
      LinesOfRest(rest, t);
      Associate([Chomp(s[..i])], Lines(rest), Lines(Rest(rest) + t));
    }
  }

  lemma FirstLine(s: string, i: nat)
    requires FirstEol(s, i)
    ensures '\n' in s && Lines(s) == [Chomp(s[..i])] + Lines(s[i + 1..]) && Rest(s) == Rest(s[i + 1..])
  {
    assert Eol(s) == i;
  }

  lemma EolPrefix(s: string, t: string)
    requires '\n' in s
    ensures '\n' in s + t && Eol(s + t) == Eol(s)
  {
    assert (s + t)[Eol(s)] == '\n';
  }

  // ----- a request from client to server

  /** The client's request: the last blank becomes a newline. */
  function Message(fs: seq<string>): string
    requires fs != []
  {
    var e := Encode(fs);
    e[..|e| - 1] + "\n"
  }

  /** What the server reads out of a stream: the fields of each line. */
  ghost function Requests(stream: string): seq<seq<string>> {
    Decoded(Lines(stream))
  }

  function Decoded(lines: seq<string>): seq<seq<string>> {
    if lines == [] then [] else [Fields(lines[0] + [NUL])] + Decoded(lines[1..])
  }

  lemma {:induction false} DecodedAppend(a: seq<string>, b: seq<string>)
    ensures Decoded(a + b) == Decoded(a) + Decoded(b)
  {
    if a == [] {
      assert a + b == b;
    } else {
      assert (a + b)[1..] == a[1..] + b;
      DecodedAppend(a[1..], b);
    }
  }

  lemma RequestsOfRest(s: string, t: string)
    ensures Requests(s + t) == Requests(s) + Requests(Rest(s) + t)
    ensures Rest(s + t) == Rest(Rest(s) + t)
  {
    LinesOfRest(s, t);
    DecodedAppend(Lines(s), Lines(Rest(s) + t));
  }

  lemma RequestsStep(s: string)
    requires '\n' in s
    ensures Requests(s) == [Fields(Chomp(s[..Eol(s)]) + [NUL])] + Requests(s[Eol(s) + 1..])
    ensures Rest(s) == Rest(s[Eol(s) + 1..])
  {
    var line, more := Chomp(s[..Eol(s)]), Lines(s[Eol(s) + 1..]);
    assert Lines(s) == [line] + more;
    assert ([line] + more)[1..] == more;
  }

  function Body(fs: seq<string>, last: string): string {
    Encode(fs) + Escape(last)
  }

  lemma {:induction false} EscapeMembers(s: string, c: char)
    requires c != '\\' && c != ' '
    ensures c in Escape(s) <==> c in s
    ensures (s != "" && s[|s| - 1] == c) <==> (Escape(s) != "" && Escape(s)[|Escape(s)| - 1] == c)
  {
    if s != "" {
      EscapeMembers(s[1..], c);
      assert |s| > 1 ==> s[|s| - 1] == s[1..][|s| - 2]
                         && Escape(s)[|Escape(s)| - 1] == Escape(s[1..])[|Escape(s[1..])| - 1];
    }
  }

  lemma {:induction false} EncodeMembers(fs: seq<string>)
    ensures '\n' in Encode(fs) <==> exists f :: f in fs && '\n' in f
  {
    if fs != [] {
      EscapeMembers(fs[0], '\n');
      EncodeMembers(fs[1..]);
      assert forall f :: f in fs <==> f == fs[0] || f in fs[1..];
    }
  }

  lemma {:induction false} EncodeEndsBlank(fs: seq<string>)
    requires fs != []
    ensures Encode(fs) != "" && Encode(fs)[|Encode(fs)| - 1] == ' '
  {
    if |fs| > 1 {
      EncodeEndsBlank(fs[1..]);
    }
  }

  lemma MessageIsBody(fs: seq<string>, last: string)
    ensures Message(fs + [last]) == Body(fs, last) + "\n"
  {
    EncodeAppend(fs, [last]);
    var e := Encode(fs + [last]);
    assert Encode([last]) == Escape(last) + " " + "";
    assert e == Body(fs, last) + " ";
    assert e[..|e| - 1] == Body(fs, last);
  }

  lemma BodyNewlines(fs: seq<string>, last: string)
    ensures '\n' in Body(fs, last) <==> exists f :: f in fs + [last] && '\n' in f
  {
    EncodeMembers(fs);
    EscapeMembers(last, '\n');
    assert forall f :: f in fs + [last] <==> f in fs || f == last;
  }

  lemma ChompBody(fs: seq<string>, last: string)
    ensures Chomp(Body(fs, last)) == Body(fs, Chomp(last))
  {
    if last != "" && last[|last| - 1] == '\r' {
      ChompsReturn(fs, last[..|last| - 1]);
      assert last == last[..|last| - 1] + "\r";
    } else {
      KeepsEnd(fs, last);
    }
  }

  lemma ChompsReturn(fs: seq<string>, t: string)
    ensures Chomp(Body(fs, t + "\r")) == Body(fs, t)
  {
    EscapeAppend(t, "\r");
    assert Escape("\r") == EscapeChar('\r') + Escape("\r"[1..]);
    Associate(Encode(fs), Escape(t), "\r");
    assert Body(fs, t + "\r") == Body(fs, t) + "\r";
  }

  lemma KeepsEnd(fs: seq<string>, last: string)
    requires last == "" || last[|last| - 1] != '\r'
    ensures Chomp(Body(fs, last)) == Body(fs, last)
  {
    EscapeMembers(last, '\r');
    var body := Body(fs, last);
    if last == "" {
      if fs != [] {
        EncodeEndsBlank(fs);
      }
    } else {
      assert body[|body| - 1] == Escape(last)[|Escape(last)| - 1];
    }
  }

  /** A request of C strings reaches the handler as the same fields exactly when
      no field holds a newline and the last does not end in a carriage return. */
  lemma RequestArrivesExactly(fs: seq<string>)
    requires fs != [] && forall f :: f in fs ==> Plain(f)
    ensures Requests(Message(fs)) == [fs]
            <==> (forall f :: f in fs ==> '\n' !in f) && Chomp(fs[|fs| - 1]) == fs[|fs| - 1]
  {
    var init, last := fs[..|fs| - 1], fs[|fs| - 1];
    assert fs == init + [last];
    var body := Body(init, last);
    MessageIsBody(init, last);
    BodyNewlines(init, last);
    if '\n' in body {
      TwoLines(body);
      DecodedLength(Lines(body + "\n"));
    } else {
      assert Plain(last) by { assert last in fs; }
      assert forall f :: f in init ==> f in fs;
      OneRequest(init, last);
      assert fs == init + [Chomp(last)] ==> (init + [Chomp(last)])[|init|] == last;
    }
  }

  /** A last field that ends in a carriage return loses it on the way. */
  lemma ReturnIsLost(fs: seq<string>, v: string)
    requires (forall f :: f in fs ==> Plain(f) && '\n' !in f) && Plain(v) && '\n' !in v
    ensures Requests(Message(fs + [v + "\r"])) == [fs + [v]]
  {
    BodyNewlines(fs, v + "\r");
    MessageIsBody(fs, v + "\r");
    OneRequest(fs, v + "\r");
    assert Chomp(v + "\r") == v;
  }

  /** So a FLUSH of a file "a" and a carriage return flushes the file "a". */
  lemma OtherFileFlushed()
    ensures Requests(Message(["flush", "a\r"])) == [["flush", "a"]]
  {
    assert "a" + "\r" == "a\r";
    assert ["flush"] + ["a" + "\r"] == ["flush", "a\r"] && ["flush"] + ["a"] == ["flush", "a"];
    ReturnIsLost(["flush"], "a");
  }

  lemma {:induction false} DecodedLength(lines: seq<string>)
    ensures |Decoded(lines)| == |lines|
  {
    if lines != [] {
      DecodedLength(lines[1..]);
    }
  }

  lemma OneRequest(init: seq<string>, last: string)
    requires (forall f :: f in init ==> Plain(f)) && Plain(last) && '\n' !in Body(init, last)
    ensures Requests(Body(init, last) + "\n") == [init + [Chomp(last)]]
  {
    OneLine(Body(init, last));
    ChompBody(init, last);
    FieldsOfEncoded(init, Chomp(last));
    var line := Body(init, Chomp(last));
    assert Decoded([line]) == [Fields(line + [NUL])] + Decoded([line][1..]);
  }

  lemma TwoLines(body: string)
    requires '\n' in body
    ensures |Lines(body + "\n")| >= 2
  {
    EolPrefix(body, "\n");
    var i := Eol(body);
    var t := body[i + 1..] + "\n";
    assert (body + "\n")[i + 1..] == t;
    assert t[|t| - 1] == '\n';
    assert |Lines(t)| >= 1;
  }

  lemma OneLine(body: string)
    requires '\n' !in body
    ensures Lines(body + "\n") == [Chomp(body)]
  {
    EolOfTail(body);
    var s := body + "\n";
    assert s[..|body|] == body && s[|body| + 1..] == "";
  }

  lemma EolOfTail(body: string)
    requires '\n' !in body
    ensures '\n' in body + "\n" && Eol(body + "\n") == |body|
  {
    assert (body + "\n")[|body|] == '\n';
  }
}
