/** Responses of rrdcached: a count of lines, a message and the lines, at once or
    collected over a BATCH. */
module Batch {
  import opened WireClient
  import Diff

  // ----- lines

  function Newlines(s: string): nat {
    if s == "" then 0 else Newlines(s[..|s| - 1]) + if s[|s| - 1] == '\n' then 1 else 0
  }

  lemma {:induction false} NewlinesAppend(s: string, t: string)
    ensures Newlines(s + t) == Newlines(s) + Newlines(t)
  {
    if t == "" {
      assert s + t == s;
    } else {
      NewlinesAppend(s, t[..|t| - 1]);
      assert (s + t)[..|s + t| - 1] == s + t[..|t| - 1];
    }
  }

  lemma {:induction false} NoNewlines(s: string)
    requires '\n' !in s
    ensures Newlines(s) == 0
  {
    if s != "" {
      assert forall c :: c in s[..|s| - 1] ==> c in s;
      NoNewlines(s[..|s| - 1]);
      assert s[|s| - 1] in s;
    }
  }

  lemma {:induction false} DecimalDigits(n: nat)
    ensures '\n' !in Decimal(n)
    decreases n
  {
    if n >= 10 {
      DecimalDigits(n / 10);
    }
  }

  /** count_lines. */
  method CountLines(s: string) returns (lines: nat)
    ensures lines == Newlines(s)
  {
    lines := 0;
    var pos := 0;
    assert s[..0] == "";
    while pos < |s|
      invariant pos <= |s| && lines == Newlines(s[..pos])
    {
      assert s[..pos + 1][..pos] == s[..pos];
      if s[pos] == '\n' {
        lines := lines + 1;
      }
      pos := pos + 1;
    }
    assert s[..pos] == s;
  }

  // ----- commands of a batch

  /** What the handler of a command answers: one line, and only that. */
  datatype Command = Succeeds(message: string) | Fails(message: string)

  ghost predicate OneLine(message: string) {
    message != "" && message[|message| - 1] == '\n' && '\n' !in message[..|message| - 1]
  }

  ghost predicate AllOneLine(commands: seq<Command>) {
    forall i :: 0 <= i < |commands| ==> OneLine(commands[i].message)
  }

  function Failed(commands: seq<Command>): nat {
    if commands == [] then 0
    else Failed(commands[..|commands| - 1]) + if commands[|commands| - 1].Fails? then 1 else 0
  }

  /** A line of the report: the number of the command and its message. */
  datatype Entry = Entry(number: nat, message: string)

  function Line(e: Entry): string {
    Decimal(e.number) + " " + e.message
  }

  /** The failed commands, counted from one. */
  function Entries(commands: seq<Command>): seq<Entry> {
    if commands == [] then []
    else
      var last := commands[|commands| - 1];
      Entries(commands[..|commands| - 1]) + if last.Fails? then [Entry(|commands|, last.message)] else []
  }

  function Text(entries: seq<Entry>): string {
    if entries == [] then "" else Text(entries[..|entries| - 1]) + Line(entries[|entries| - 1])
  }

  /** The entries are as many as the failed commands, in the order of the commands. */
  lemma {:induction false} EntriesRise(commands: seq<Command>)
    ensures var entries := Entries(commands);
            && |entries| == Failed(commands)
            && (forall i :: 0 <= i < |entries| ==> entries[i].number <= |commands|)
            && forall i, j :: 0 <= i < j < |entries| ==> entries[i].number < entries[j].number
    decreases |commands|
  {
    if commands != [] {
      EntriesRise(commands[..|commands| - 1]);
    }
  }

  /** There is one for every failed command, with its message, and no other. */
  lemma {:induction false} EntriesAreFailures(commands: seq<Command>, e: Entry)
    ensures e in Entries(commands)
            <==> 1 <= e.number <= |commands| && commands[e.number - 1] == Fails(e.message)
    decreases |commands|
  {
    if commands != [] {
      var n := |commands| - 1;
      EntriesAreFailures(commands[..n], e);
      var last := if commands[n].Fails? then [Entry(n + 1, commands[n].message)] else [];
      assert e in Entries(commands) <==> e in Entries(commands[..n]) || e in last;
    }
  }

  /** A line reads back as its number, a blank and the message. */
  lemma LineReads(e: Entry)
    ensures var line, n := Line(e), |Decimal(e.number)|;
            && n < |line| && Diff.Digits(line[..n]) && Diff.Value(line[..n]) == e.number
            && line[n] == ' ' && line[n + 1..] == e.message
  {
    DecimalReads(e.number);
    var line, d := Line(e), Decimal(e.number);
    assert line[..|d|] == d;
  }

  lemma LineNewlines(e: Entry)
    requires OneLine(e.message)
    ensures Newlines(Line(e)) == 1
  {
    DecimalDigits(e.number);
    NoNewlines(Decimal(e.number));
    NewlinesAppend(Decimal(e.number), " ");
    NewlinesAppend(Decimal(e.number) + " ", e.message);
    NoNewlines(" ");
    NoNewlines(e.message[..|e.message| - 1]);
  }

  /** So the report has one line for every failed command. */
  lemma {:induction false} ReportLines(commands: seq<Command>)
    requires AllOneLine(commands)
    ensures Newlines(Text(Entries(commands))) == Failed(commands)
    decreases |commands|
  {
    if commands != [] {
      var n := |commands| - 1;
      ReportLines(commands[..n]);
      if commands[n].Fails? {
        var e, before := Entry(n + 1, commands[n].message), Entries(commands[..n]);
        TextMore(before, e);
        LineNewlines(e);
        NewlinesAppend(Text(before), Line(e));
      } else {
        assert Entries(commands) == Entries(commands[..n]);
      }
    }
  }

  lemma TextMore(entries: seq<Entry>, e: Entry)
    ensures Text(entries + [e]) == Text(entries) + Line(e)
  {
    assert (entries + [e])[..|entries|] == entries;
  }

  lemma NextEntry(commands: seq<Command>, i: nat)
    requires i < |commands|
    ensures var before := Text(Entries(commands[..i]));
            Text(Entries(commands[..i + 1]))
            == if commands[i].Fails? then before + Line(Entry(i + 1, commands[i].message)) else before
  {
    assert commands[..i + 1][..i] == commands[..i];
    var entries := Entries(commands[..i]);
    if commands[i].Fails? {
      TextMore(entries, Entry(i + 1, commands[i].message));
    } else {
      assert entries + [] == entries;
    }
  }

  // ----- the connection

  const GO_AHEAD: string := "Go ahead.  End with dot '.' on its own line.\n"

  class Session {
    var wbuf: string
    var batch: bool
    var batchCmd: nat
    var sent: string      // what was written to the socket

    constructor ()
      ensures wbuf == "" && !batch && batchCmd == 0 && sent == ""
    {
      wbuf, batch, batchCmd, sent := "", false, 0, "";
    }

    /** send_response. */
    method SendResponse(ok: bool, message: string)
      modifies this
      ensures batch == old(batch) && batchCmd == old(batchCmd)
      ensures old(batch) && ok ==> wbuf == old(wbuf) && sent == old(sent)
      ensures old(batch) && !ok ==> wbuf == old(wbuf) + Line(Entry(batchCmd, message)) && sent == old(sent)
      ensures !old(batch) ==> wbuf == ""
      ensures !old(batch) && ok ==>
                sent == old(sent) + Line(Entry(Newlines(old(wbuf)), message)) + old(wbuf)
      ensures !old(batch) && !ok ==> sent == old(sent) + "-1 " + message
    {
      var status: string;
      if batch {
        if ok {
          return;
        }
        status := Decimal(batchCmd);
      } else if ok {
        var lines := CountLines(wbuf);
        status := Decimal(lines);
      } else {
        status := "-1";
      }
      var buffer := status + " " + message;
      if batch {
        wbuf := wbuf + buffer;
        return;
      }
      assert sent + "-1 " + message == sent + ("-1" + " " + message);
      sent := sent + buffer;
      if ok {
        sent := sent + wbuf;
      }
      wbuf := "";
    }

    method BatchStart()
      modifies this
      ensures old(batch) ==>
                batch && batchCmd == old(batchCmd) && sent == old(sent)
                && wbuf == old(wbuf) + Line(Entry(batchCmd, "Already in BATCH\n"))
      ensures !old(batch) ==>
                && batch && batchCmd == 0 && wbuf == ""
                && sent == old(sent) + Line(Entry(Newlines(old(wbuf)), GO_AHEAD)) + old(wbuf)
    {
      if batch {
        SendResponse(false, "Already in BATCH\n");
        return;
      }
      SendResponse(true, GO_AHEAD);
      batch := true;
      batchCmd := 0;
    }

    method BatchDone()
      requires batch
      modifies this
      ensures !batch && batchCmd == 0 && wbuf == ""
      ensures sent == old(sent) + Line(Entry(Newlines(old(wbuf)), "errors\n")) + old(wbuf)
    {
      batch := false;
      batchCmd := 0;
      SendResponse(true, "errors\n");
    }

    /** A command inside a batch. */
    method Handle(c: Command)
      requires batch
      modifies this
      ensures batch && batchCmd == old(batchCmd) + 1 && sent == old(sent)
      ensures wbuf == if c.Fails? then old(wbuf) + Line(Entry(batchCmd, c.message)) else old(wbuf)
    {
      batchCmd := batchCmd + 1;
      SendResponse(c.Succeeds?, c.message);
    }

    /** A whole batch, from BATCH to the dot: the client is told the number of
        failed commands, followed by one line for each. */
    method RunBatch(commands: seq<Command>)
      requires !batch && wbuf == "" && AllOneLine(commands)
      modifies this
      ensures !batch && wbuf == ""
      ensures sent == old(sent) + Line(Entry(0, GO_AHEAD))
                    + Line(Entry(Failed(commands), "errors\n")) + Text(Entries(commands))
    {
      BatchStart();
      RunCommands(commands);
      BatchDone();
    }

    /** The commands of a batch and the dot's own number. */
    method RunCommands(commands: seq<Command>)
      requires batch && batchCmd == 0 && wbuf == "" && AllOneLine(commands)
      modifies this
      ensures batch && sent == old(sent)
      ensures wbuf == Text(Entries(commands)) && Newlines(wbuf) == Failed(commands)
    {
      assert commands[..0] == [];
      for i := 0 to |commands|
        invariant batch && batchCmd == i && sent == old(sent) && wbuf == Text(Entries(commands[..i]))
      {
        NextEntry(commands, i);
        Handle(commands[i]);
      }
      assert commands[..|commands|] == commands;
      ReportLines(commands);
      batchCmd := batchCmd + 1;
    }
  }
}
