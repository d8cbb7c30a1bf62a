/** The client's side of a request: fields escaped into a buffer of fixed size. */
module WireClient {
  import opened Wire
  import opened WireBuffers
  import Diff

  /** What printf writes for an unsigned number. */
  function Decimal(n: nat): string
    decreases n
  {
    var digit := ['0' + (n % 10) as char];
    if n < 10 then digit else Decimal(n / 10) + digit
  }

  /** A value as it goes out: `N` stands for the current time. */
  function Dated(value: string, now: nat): string {
    if "N:" <= value then Decimal(now) + ":" + value[2..] else value
  }

  /** It reads back as the number, and has no digit too many. */
  lemma {:induction false} DecimalReads(n: nat)
    ensures Decimal(n) != "" && Diff.Digits(Decimal(n)) && Diff.Value(Decimal(n)) == n
    ensures if n == 0 then Decimal(n) == "0" else Decimal(n)[0] != '0'
    decreases n
  {
    var s := Decimal(n);
    if n >= 10 {
      DecimalReads(n / 10);
      assert s[..|s| - 1] == Decimal(n / 10) && s[0] == Decimal(n / 10)[0];
    } else {
      assert s[..0] == "" && Diff.Value(s) == Diff.Value("") * 10 + Diff.DigitOf(s[0]);
    }
  }

  /** `N` becomes the time; every other value stays as it is. */
  lemma DatedIs(value: string, now: nat)
    ensures Dated("N:" + value, now) == Decimal(now) + ":" + value
    ensures |value| < 2 || value[0] != 'N' || value[1] != ':' ==> Dated(value, now) == value
  {
    assert ("N:" + value)[2..] == value;
  }

  lemma {:induction false} DatedAllAt(values: seq<string>, now: nat, i: nat)
    requires i < |values|
    ensures DatedAll(values, now)[i] == Dated(values[i], now)
  {
    if i > 0 {
      DatedAllAt(values[1..], now, i - 1);
    }
  }

  function DatedAll(values: seq<string>, now: nat): (r: seq<string>)
    ensures |r| == |values|
  {
    if values == [] then [] else [Dated(values[0], now)] + DatedAll(values[1..], now)
  }

  lemma {:induction false} DatedAllAppend(values: seq<string>, v: string, now: nat)
    ensures DatedAll(values + [v], now) == DatedAll(values, now) + [Dated(v, now)]
  {
    if values == [] {
      assert ([v])[1..] == [];
    } else {
      assert (values + [v])[1..] == values[1..] + [v];
      DatedAllAppend(values[1..], v, now);
    }
  }

  lemma {:induction false} EscapeLengthens(s: string)
    ensures |Escape(s)| >= |s|
  {
    if s != "" {
      EscapeLengthens(s[1..]);
    }
  }

  /** `Escape` of what stands in `s` from `i` on. */
  function EscapeAt(s: string, i: nat): string
    decreases |s| - i
  {
    if i >= |s| then "" else EscapeChar(s[i]) + EscapeAt(s, i + 1)
  }

  lemma {:induction false} EscapeAtIsEscape(s: string, i: nat)
    requires i <= |s|
    ensures EscapeAt(s, i) == Escape(s[i..])
    decreases |s| - i
  {
    if i < |s| {
      assert s[i..][1..] == s[i + 1..];
      EscapeAtIsEscape(s, i + 1);
    }
  }

  lemma EscapeAtStart(s: string)
    ensures "" + EscapeAt(s, 0) == Escape(s)
  {
    EscapeAtIsEscape(s, 0);
    assert s[0..] == s;
  }

  /** One more character escaped behind `text`. */
  lemma EscapeStep(text: string, s: string, i: nat)
    requires i < |s|
    ensures |EscapeAt(s, i)| >= |EscapeChar(s[i])|
    ensures if s[i] == ' ' || s[i] == '\\'
            then text + EscapeAt(s, i) == text + ['\\'] + [s[i]] + EscapeAt(s, i + 1)
            else text + EscapeAt(s, i) == text + [s[i]] + EscapeAt(s, i + 1)
  {
  }

  class RequestBuffer {
    const buffer: array<char>
    var pos: nat

    constructor ()
      ensures Valid() && Contents() == "" && fresh(buffer)
    {
      buffer := new char[CMD_MAX];
      pos := 0;
    }

    ghost predicate Valid()
      reads this
    {
      buffer.Length == CMD_MAX && pos <= CMD_MAX
    }

    ghost function Contents(): string
      reads this, buffer
      requires Valid()
    {
      buffer[..pos]
    }

    method Put(p: nat, c: char, ghost before: string, ghost text: string)
      requires Valid() && pos == |before| && p == pos + |text| < buffer.Length
      requires Holds(buffer, 0, before) && Holds(buffer, pos, text)
      modifies buffer
      ensures Holds(buffer, 0, before) && Holds(buffer, pos, text + [c])
    {
      buffer[p] := c;
    }

    /** buffer_add_string: the escaped field and a blank are added exactly when
        they fit. */
    method AddString(str: string) returns (ok: bool)
      requires Valid()
      modifies this`pos, buffer
      ensures Valid() && ok == (old(pos) + |Escape(str)| + 1 <= CMD_MAX)
      ensures Contents() == if ok then old(Contents()) + (Escape(str) + " ") else old(Contents())
    {
      var p := pos;
      var i := 0;
      ghost var text, all, before := "", Escape(str), Contents();
      EscapeAtStart(str);
      while p < buffer.Length
        invariant i <= |str| && p == pos + |text| <= buffer.Length && all == text + EscapeAt(str, i)
        invariant Holds(buffer, pos, text)
        invariant |before| == pos && Holds(buffer, 0, before)
        decreases buffer.Length - p
      {
        if i == |str| {
          assert text == all;
          Put(p, ' ', before, text);
          pos := p + 1;
          Extended(before, all);
          return true;
        }
        EscapeStep(text, str, i);
        if str[i] == ' ' || str[i] == '\\' {
          if p >= buffer.Length - 1 {
            break;
          }
          Put(p, '\\', before, text);
          text := text + ['\\'];
          p := p + 1;
        }
        Put(p, str[i], before, text);
        text := text + [str[i]];
        p := p + 1;
        i := i + 1;
      }
      Untouched(before);
      return false;
    }

    lemma Untouched(before: string)
      requires Valid() && pos == |before| && Holds(buffer, 0, before)
      ensures Contents() == before
    {
    }

    lemma Extended(before: string, all: string)
      requires Valid() && Holds(buffer, 0, before) && Holds(buffer, |before|, all + [' '])
      requires pos == |before| + |all| + 1
      ensures Contents() == before + (all + " ")
    {
    }

    /** buffer_add_value, which cuts a value that is longer than its own buffer. */
    method AddValue(value: string, now: nat) returns (ok: bool)
      requires Valid() && pos > 0
      modifies this`pos, buffer
      ensures Valid() && pos > 0 && ok == (old(pos) + |Escape(Dated(value, now))| + 1 <= CMD_MAX)
      ensures Contents() == if ok then old(Contents()) + (Escape(Dated(value, now)) + " ") else old(Contents())
    {
      var temp := Dated(value, now);
      if |temp| > CMD_MAX - 1 {
        EscapeLengthens(temp);
        temp := temp[..CMD_MAX - 1];
        EscapeLengthens(temp);
      }
      ok := AddString(temp);
    }
  }

  /** The fields of an UPDATE request. */
  function UpdateFields(file: string, values: seq<string>, now: nat): seq<string> {
    ["update", file] + DatedAll(values, now)
  }

  lemma {:induction false} EncodeGrows(fs: seq<string>, gs: seq<string>)
    ensures |Encode(fs + gs)| >= |Encode(fs)|
    ensures gs != [] ==> |Encode(fs + gs)| >= |Encode(fs + [gs[0]])|
  {
    EncodeAppend(fs, gs);
    if gs != [] {
      EncodeAppend(fs, [gs[0]]);
      EncodeAppend([gs[0]], gs[1..]);
      assert gs == [gs[0]] + gs[1..];
    }
  }

  lemma EncodeOne(fs: seq<string>, f: string)
    ensures Encode(fs + [f]) == Encode(fs) + (Escape(f) + " ")
  {
    EncodeAppend(fs, [f]);
    assert Encode([f]) == Escape(f) + " " + Encode([f][1..]);
  }

  /** The values, one buffer_add_value after the other. */
  method AddValues(b: RequestBuffer, file: string, values: seq<string>, now: nat) returns (ok: bool)
    requires b.Valid() && b.pos > 0 && b.Contents() == Encode(["update", file])
    modifies b`pos, b.buffer
    ensures b.Valid() && b.pos > 0 && ok == (|Encode(UpdateFields(file, values, now))| <= CMD_MAX)
    ensures ok ==> b.Contents() == Encode(UpdateFields(file, values, now))
  {
    var i := 0;
    ghost var done := ["update", file];
    assert values[..0] == [] && done + [] == done;
    while i < |values|
      invariant i <= |values| && b.Valid() && b.pos > 0
      invariant done == UpdateFields(file, values[..i], now) && b.Contents() == Encode(done)
    {
      EncodeRest(file, values, i, now);
      ok := b.AddValue(values[i], now);
      if !ok {
        return;
      }
      done := done + [Dated(values[i], now)];
      i := i + 1;
    }
    assert values[..i] == values;
    ok := true;
  }

  /** rrdc_update: the request is sent exactly when it fits the buffer, and then
      it is the message of its fields. */
  method BuildUpdate(file: string, values: seq<string>, now: nat) returns (request: string, ok: bool)
    ensures ok == (|Message(UpdateFields(file, values, now))| <= CMD_MAX)
    ensures ok ==> request == Message(UpdateFields(file, values, now))
  {
    var b := new RequestBuffer();
    request := "";
    Header(file, DatedAll(values, now));
    ok := b.AddString("update");
    ok := b.AddString(file);
    if !ok {
      return;
    }
    ok := AddValues(b, file, values, now);
    if ok {
      request := Finish(b, UpdateFields(file, values, now));
    }
  }

  /** The last blank becomes a newline. */
  method Finish(b: RequestBuffer, ghost fields: seq<string>) returns (request: string)
    requires b.Valid() && b.pos > 0 && fields != [] && b.Contents() == Encode(fields)
    modifies b.buffer
    ensures request == Message(fields)
  {
    b.buffer[b.pos - 1] := '\n';
    request := b.buffer[..b.pos];
  }

  lemma Header(file: string, more: seq<string>)
    ensures |Escape("update")| == 6
    ensures "" + (Escape("update") + " ") + (Escape(file) + " ") == Encode(["update", file])
    ensures |Encode(["update", file] + more)| >= |Encode(["update", file])|
  {
    EncodeOne([], "update");
    EncodeOne(["update"], file);
    assert [] + ["update"] == ["update"] && Escape("update") == "update";
    assert ["update"] + [file] == ["update", file];
    EncodeGrows(["update", file], more);
  }

  lemma EncodeRest(file: string, values: seq<string>, i: nat, now: nat)
    requires i < |values|
    ensures var next, v := UpdateFields(file, values[..i + 1], now), Dated(values[i], now);
            && next == UpdateFields(file, values[..i], now) + [v]
            && Encode(next) == Encode(UpdateFields(file, values[..i], now)) + (Escape(v) + " ")
            && |Encode(UpdateFields(file, values, now))| >= |Encode(next)|
  {
    var next, v := UpdateFields(file, values[..i + 1], now), Dated(values[i], now);
    OneMoreField(file, values, i, now);
    EncodeOne(UpdateFields(file, values[..i], now), v);
    RestOfFields(file, values, i + 1, now);
    EncodeGrows(next, DatedAll(values[i + 1..], now));
  }

  lemma OneMoreField(file: string, values: seq<string>, i: nat, now: nat)
    requires i < |values|
    ensures UpdateFields(file, values[..i + 1], now)
         == UpdateFields(file, values[..i], now) + [Dated(values[i], now)]
  {
    assert values[..i + 1] == values[..i] + [values[i]];
    DatedAllAppend(values[..i], values[i], now);
    Associate(["update", file], DatedAll(values[..i], now), [Dated(values[i], now)]);
  }

  lemma RestOfFields(file: string, values: seq<string>, i: nat, now: nat)
    requires i <= |values|
    ensures UpdateFields(file, values, now) == UpdateFields(file, values[..i], now) + DatedAll(values[i..], now)
  {
    DatedAllSplit(values, i, now);
    Associate(["update", file], DatedAll(values[..i], now), DatedAll(values[i..], now));
  }

  lemma {:induction false} DatedAllSplit(values: seq<string>, i: nat, now: nat)
    requires i <= |values|
    ensures DatedAll(values, now) == DatedAll(values[..i], now) + DatedAll(values[i..], now)
  {
    if i == 0 {
      assert values[0..] == values;
    } else {
      var tail := values[1..];
      DatedAllSplit(tail, i - 1, now);
      assert values[..i][0] == values[0] && values[..i][1..] == tail[..i - 1];
      assert tail[i - 1..] == values[i..];
      Associate([Dated(values[0], now)], DatedAll(tail[..i - 1], now), DatedAll(values[i..], now));
    }
  }

  lemma {:induction false} RestShrinks(s: string)
    ensures |Rest(s)| <= |s|
    decreases |s|
  {
    if '\n' in s {
      RestShrinks(s[Eol(s) + 1..]);
    }
  }

  lemma {:induction false} FlattenPrefix(chunks: seq<string>, k: nat)
    requires k < |chunks|
    ensures |Flatten(chunks[..k])| + |chunks[k]| <= |Flatten(chunks)|
    decreases |chunks|
  {
    var init := chunks[..|chunks| - 1];
    if k < |chunks| - 1 {
      FlattenPrefix(init, k);
      assert init[..k] == chunks[..k];
    }
  }

  /** A request the client could build reaches the server however it is cut. */
  lemma AnyCutIsReadable(chunks: seq<string>)
    requires |Flatten(chunks)| <= CMD_MAX && forall c :: c in chunks ==> c != ""
    ensures Readable(chunks)
  {
    forall k | 0 <= k < |chunks|
      ensures chunks[k] != "" && |Rest(Flatten(chunks[..k]))| + |chunks[k]| <= RBUF_SIZE
    {
      assert chunks[k] in chunks;
      CutFits(chunks, k);
    }
  }

  lemma CutFits(chunks: seq<string>, k: nat)
    requires |Flatten(chunks)| <= CMD_MAX && k < |chunks|
    ensures |Rest(Flatten(chunks[..k]))| + |chunks[k]| <= RBUF_SIZE
  {
    RestShrinks(Flatten(chunks[..k]));
    FlattenPrefix(chunks, k);
  }

  lemma ServedOne(requests: seq<seq<string>>, fields: seq<string>)
    requires !Closes(fields)
    ensures Served(requests) == [fields] <==> requests == [fields]
  {
    if requests != [] && !Closes(requests[0]) {
      var head, tail := requests[0], requests[1..];
      assert requests == [head] + tail;
      assert Served(tail) == [] <==> tail == [];
      assert Served(requests) == [head] + Served(tail);
      assert |Served(requests)| == 1 ==> Served(tail) == [];
    }
  }

  /** An UPDATE from rrdc_update to the server: if its fields fit the client's buffer
      they are sent, and however the request is cut on the way, the server reads
      exactly these fields if and only if none of them holds a newline and the last
      does not end in a carriage return. */
  method SendUpdate(file: string, values: seq<string>, now: nat, cut: string -> seq<string>)
    returns (sent: bool, requests: seq<seq<string>>)
    requires forall s :: Flatten(cut(s)) == s && forall c :: c in cut(s) ==> c != ""
    requires forall f :: f in UpdateFields(file, values, now) ==> Plain(f)
    ensures var fields := UpdateFields(file, values, now);
            && sent == (|Message(fields)| <= 4096)
            && (sent ==>
                  (requests == [fields]
                   <==> && (forall f :: f in fields ==> '\n' !in f)
                        && Chomp(fields[|fields| - 1]) == fields[|fields| - 1]))
  {
    var request: string;
    request, sent := BuildUpdate(file, values, now);
    requests := [];
    if sent {
      var chunks := cut(request);
      AnyCutIsReadable(chunks);
      requests := Serve(chunks);
      RequestArrivesExactly(UpdateFields(file, values, now));
      assert Lower("update")[0] == 'u';
      ServedOne(Requests(request), UpdateFields(file, values, now));
    }
  }
}
