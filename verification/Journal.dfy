/** The journal of rrdcached: the lines its requests and writers leave behind, and
    the cache that replaying them builds. */
module Journal {
  import opened CacheModel
  import CacheHistory
  import Wire
  import WireBuffers
  import WireClient

  const NUL: char := Wire.NUL

  /** What strtod finds in front of a colon. */
  datatype Clock = NoClock | At(stamp: real)

  /** Configuration, base directory ("" for none) and reader of time stamps. */
  datatype Setup = Setup(cfg: Config, base: string, strtod: string -> Clock)

  // ----- requests

  /** get_abs_path. */
  function AbsPath(base: string, name: string): File {
    if base == "" || (name != "" && name[0] == '/') then File(name) else File(base + "/" + name)
  }

  function ToFields(su: Setup, texts: seq<string>): seq<Field> {
    if texts == [] then []
    else
      var field := match su.strtod(texts[0])
        case NoClock => NoStamp(texts[0])
        case At(t) => Stamped(Sample(texts[0], t));
      [field] + ToFields(su, texts[1..])
  }

  datatype Parsed = Bad | Parsed(file: File, fields: seq<Field>)

  /** A file name and what follows it. */
  function Parse(su: Setup, args: string): Parsed {
    var r := Wire.ScanField(args + [NUL]);
    if r.Broken? then Bad
    else Parsed(AbsPath(su.base, r.text), ToFields(su, Wire.Fields((args + [NUL])[r.used..])))
  }

  /** UPDATE from the point where it holds the lock for good. */
  function DoUpdate(su: Setup, c: Cache, args: string, now: int, flushTime: int): Cache {
    var p := Parse(su, args);
    if p.Bad? then c
    else
      var c' := if p.file in c.tree then c else Insert(c, p.file, flushTime);
      Update(su.cfg, c', p.file, p.fields, now)
  }

  function DoForget(su: Setup, c: Cache, args: string): Cache {
    var p := Parse(su, args);
    if p.Bad? then c else Forget(c, p.file)
  }

  /** The handlers that may run in replay. */
  function Dispatch(su: Setup, c: Cache, cmd: string, args: string, now: int, flushTime: int): Cache {
    if cmd == "update" then DoUpdate(su, c, args, now, flushTime)
    else if cmd == "forget" then DoForget(su, c, args)
    else if cmd == "wrote" then Wrote(c, File(args), flushTime)
    else c
  }

  /** handle_request as replay calls it. */
  function Handle(su: Setup, c: Cache, line: string, now: int, flushTime: int): Cache {
    var r := Wire.ScanField(line + [NUL]);
    if r.Broken? || r.used > |line| then c
    else Dispatch(su, c, Wire.Lower(r.text), line[r.used..], now, flushTime)
  }

  /** Replay from an empty cache; `flush` is the flush time chosen at each line. */
  function Replay(su: Setup, lines: seq<string>, now: int, flush: nat -> int): Cache {
    if lines == [] then Cache(map[], [])
    else
      var n := |lines| - 1;
      Handle(su, Replay(su, lines[..n], now, flush), lines[n], now, flush(n))
  }

  // ----- lines read back

  lemma {:induction false} EscapeNothing(s: string)
    requires ' ' !in s && '\\' !in s
    ensures Wire.Escape(s) == s
  {
    if s != "" {
      EscapeNothing(s[1..]);
    }
  }

  lemma ScanWord(word: string, args: string)
    requires ' ' !in word && '\\' !in word && NUL !in word
    ensures Wire.ScanField(word + " " + args + [NUL]) == Wire.Field(word, |word| + 1)
    ensures Wire.ScanField(word + [NUL]) == Wire.Field(word, |word| + 1)
  {
    EscapeNothing(word);
    Wire.ScanEscaped(word, ' ', args + [NUL]);
    assert word + " " + args + [NUL] == word + [' '] + (args + [NUL]);
    Wire.ScanEscaped(word, NUL, "");
    assert word + [NUL] + "" == word + [NUL];
  }

  lemma HandleUpdate(su: Setup, c: Cache, args: string, now: int, flushTime: int)
    ensures Handle(su, c, "update " + args, now, flushTime) == DoUpdate(su, c, args, now, flushTime)
  {
    assert "update" + " " + args == "update " + args;
    HandleWord(su, c, "update", args, now, flushTime);
  }

  lemma HandleForget(su: Setup, c: Cache, args: string, now: int, flushTime: int)
    ensures Handle(su, c, "forget " + args, now, flushTime) == DoForget(su, c, args)
  {
    assert "forget" + " " + args == "forget " + args;
    HandleWord(su, c, "forget", args, now, flushTime);
  }

  lemma HandleWrote(su: Setup, c: Cache, args: string, now: int, flushTime: int)
    ensures Handle(su, c, "wrote " + args, now, flushTime) == Wrote(c, File(args), flushTime)
  {
    assert "wrote" + " " + args == "wrote " + args;
    HandleWord(su, c, "wrote", args, now, flushTime);
  }

  lemma HandleWord(su: Setup, c: Cache, word: string, args: string, now: int, flushTime: int)
    requires forall i :: 0 <= i < |word| ==> 'a' <= word[i] <= 'z'
    ensures Handle(su, c, word + " " + args, now, flushTime) == Dispatch(su, c, word, args, now, flushTime)
  {
    assert ' ' !in word && '\\' !in word && NUL !in word;
    ScanWord(word, args);
    LowerLower(word);
    assert (word + " " + args)[|word| + 1..] == args;
  }

  lemma LowerLower(word: string)
    requires forall i :: 0 <= i < |word| ==> 'a' <= word[i] <= 'z'
    ensures Wire.Lower(word) == word
  {
  }

  /** FORGET writes the file name as it is, and replay decodes it: it names the
      same file exactly when it holds neither a blank nor a backslash. */
  lemma ForgetLineNames(path: string)
    requires NUL !in path
    ensures var r := Wire.ScanField(path + [NUL]);
            r.Field? && r.text == path <==> ' ' !in path && '\\' !in path
  {
    if ' ' !in path && '\\' !in path {
      ScanWord(path, "");
    } else {
      ScanLoses(path);
    }
  }

  lemma {:induction false} ScanLoses(s: string)
    requires ' ' in s || '\\' in s
    ensures var r := Wire.ScanField(s + [NUL]); r.Field? ==> r.text != s
  {
    if s[0] == '\\' {
      if |s| == 1 {
        assert (s + [NUL])[2..] == "";
      }
    } else if s[0] != ' ' && s[0] != NUL {
      assert s == [s[0]] + s[1..] && (s + [NUL])[1..] == s[1..] + [NUL];
      ScanLoses(s[1..]);
    }
  }

  // ----- what an UPDATE line says

  /** The value fields are those of the line, in its order, each with the stamp that
      strtod finds in it, if any. */
  lemma {:induction false} FieldsInOrder(su: Setup, texts: seq<string>)
    ensures |ToFields(su, texts)| == |texts|
    ensures forall i :: 0 <= i < |texts| ==>
              ToFields(su, texts)[i] == match su.strtod(texts[i])
                                        case NoClock => NoStamp(texts[i])
                                        case At(x) => Stamped(Sample(texts[i], x))
  {
    if texts != [] {
      FieldsInOrder(su, texts[1..]);
      forall i | 0 < i < |texts|
        ensures ToFields(su, texts)[i] == ToFields(su, texts[1..])[i - 1] && texts[1..][i - 1] == texts[i]
      {
      }
    }
  }

  /** A path below the base directory, or as it stands if it is absolute or there is
      no base directory. */
  lemma AbsPathIs(base: string, name: string)
    ensures var path := AbsPath(base, name).path;
            if base != "" && (name == "" || name[0] != '/')
            then |path| == |base| + 1 + |name| && base <= path && path[|base|] == '/' && path[|base| + 1..] == name
            else path == name
    ensures (base != "" ==> base[0] == '/') ==> AbsPath(base, AbsPath(base, name).path) == AbsPath(base, name)
  {
  }

  lemma ParsePath(su: Setup, path: string, rest: string)
    requires NUL !in path
    ensures Parse(su, Wire.Escape(path)) == Parsed(AbsPath(su.base, path), [])
    ensures Parse(su, Wire.Escape(path) + " " + rest)
         == Parsed(AbsPath(su.base, path), ToFields(su, Wire.Fields(rest + [NUL])))
  {
    var e := Wire.Escape(path);
    Wire.ScanEscaped(path, NUL, "");
    assert e + [NUL] + "" == e + [NUL] && (e + [NUL])[|e| + 1..] == "";
    Wire.ScanEscaped(path, ' ', rest + [NUL]);
    var line := e + " " + rest + [NUL];
    assert line == e + [' '] + (rest + [NUL]) && line[|e| + 1..] == rest + [NUL];
  }

  /** The arguments of an UPDATE, escaped as clients do it, are read as the path and
      the value fields, whatever characters they hold. */
  lemma ParseEscaped(su: Setup, path: string, init: seq<string>, last: string)
    requires NUL !in path && NUL !in last && forall t :: t in init ==> NUL !in t
    ensures Parse(su, Wire.Escape(path)) == Parsed(AbsPath(su.base, path), [])
    ensures Parse(su, Wire.Body([path] + init, last)) == Parsed(AbsPath(su.base, path), ToFields(su, init + [last]))
  {
    var rest := Wire.Body(init, last);
    ParsePath(su, path, rest);
    Wire.FieldsOfEncoded(init, last);
    assert rest + [NUL] == Wire.Encode(init) + Wire.Escape(last) + [NUL];
    BodyPrepend(path, init, last);
  }

  lemma BodyPrepend(f: string, init: seq<string>, last: string)
    ensures Wire.Body([f] + init, last) == Wire.Escape(f) + " " + Wire.Body(init, last)
  {
    assert ([f] + init)[1..] == init;
    Wire.Associate(Wire.Escape(f) + " ", Wire.Encode(init), Wire.Escape(last));
  }

  /** The line of a request, and the arguments in it. */
  function LineOf(fields: seq<string>): string
    requires fields != []
  {
    Wire.Body(fields[..|fields| - 1], fields[|fields| - 1])
  }

  lemma LineOfUpdate(word: string, file: string, values: seq<string>)
    requires ' ' !in word && '\\' !in word
    ensures LineOf([word, file] + values) == word + " " + LineOf([file] + values)
  {
    var all, args := [word, file] + values, [file] + values;
    if values == [] {
      assert all[..1] == [word] && args[..0] == [];
      BodyOfPath(word, file);
    } else {
      var init, last := values[..|values| - 1], values[|values| - 1];
      assert all[..|all| - 1] == [word, file] + init && args[..|args| - 1] == [file] + init;
      BodyOfWord(word, file, init, last);
    }
  }

  lemma ParseLine(su: Setup, file: string, values: seq<string>)
    requires NUL !in file && forall t :: t in values ==> NUL !in t
    ensures Parse(su, LineOf([file] + values)) == Parsed(AbsPath(su.base, file), ToFields(su, values))
  {
    var args := [file] + values;
    if values == [] {
      ParsePath(su, file, file);
      assert args[..0] == [];
      BodyOfNone([], file);
    } else {
      var init, last := values[..|values| - 1], values[|values| - 1];
      assert args[..|args| - 1] == [file] + init && values == init + [last];
      ParseEscaped(su, file, init, last);
    }
  }

  /** From the arguments of rrdc_update to the cache: the values go to the file in their
      order, with the time in place of `N`. */
  lemma ClientUpdateArrives(su: Setup, c: Cache, file: string, values: seq<string>, time: nat,
                            now: int, flushTime: int) returns (args: string)
    requires forall f :: f in WireClient.UpdateFields(file, values, time) ==> NUL !in f
    ensures Handle(su, c, LineOf(WireClient.UpdateFields(file, values, time)), now, flushTime)
         == DoUpdate(su, c, args, now, flushTime)
    ensures Parse(su, args)
         == Parsed(AbsPath(su.base, file), ToFields(su, WireClient.DatedAll(values, time)))
  {
    var dated := WireClient.DatedAll(values, time);
    args := LineOf([file] + dated);
    assert WireClient.UpdateFields(file, values, time)[1] == file;
    forall t | t in dated
      ensures NUL !in t
    {
      assert t in WireClient.UpdateFields(file, values, time);
    }
    UpdateLineHandled(su, c, "update", file, dated, now, flushTime);
    ParseLine(su, file, dated);
  }

  lemma UpdateLineHandled(su: Setup, c: Cache, word: string, file: string, values: seq<string>,
                          now: int, flushTime: int)
    requires word == "update"
    ensures Handle(su, c, LineOf([word, file] + values), now, flushTime)
         == DoUpdate(su, c, LineOf([file] + values), now, flushTime)
  {
    LineOfUpdate(word, file, values);
    HandleWord(su, c, word, LineOf([file] + values), now, flushTime);
  }

  lemma BodyOfNone(none: seq<string>, last: string)
    requires none == []
    ensures Wire.Body(none, last) == Wire.Escape(last)
  {
    assert Wire.Encode(none) == "" && "" + Wire.Escape(last) == Wire.Escape(last);
  }

  lemma BodyOfPath(word: string, file: string)
    requires ' ' !in word && '\\' !in word
    ensures Wire.Body([word], file) == word + " " + Wire.Escape(file)
  {
    EscapeNothing(word);
    assert [word][1..] == [];
    assert Wire.Encode([word]) == Wire.Escape(word) + " " + Wire.Encode([word][1..]);
    assert Wire.Encode([word]) == word + " ";
  }

  lemma BodyOfWord(word: string, file: string, init: seq<string>, last: string)
    requires ' ' !in word && '\\' !in word
    ensures Wire.Body([word, file] + init, last) == word + " " + Wire.Body([file] + init, last)
  {
    EscapeNothing(word);
    BodyPrepend(word, [file] + init, last);
    assert [word] + ([file] + init) == [word, file] + init;
  }

  // ----- histories

  /** Values taken by a writer whose `wrote` line is not in the journal yet; once
      rrd_update_r has returned they are stored in the archive. */
  datatype Batch = Batch(file: File, values: seq<Sample>, stored: bool)

  datatype State = State(
    cache: Cache,
    lines: seq<string>,
    flying: seq<Batch>,       // in dequeue order
    forgetting: seq<File>)    // forgotten, without the `forget` line

  datatype Event =
    | Updated(args: string, now: int, flushTime: int)
    | Dequeued(flushTime: int)
    | Stored(batch: nat)
    | WroteLine(batch: nat)
    | Forgot(args: string)
    | ForgetLine(index: nat)
    | Requeued(queue: seq<File>)

  function Start(): State {
    State(Cache(map[], []), [], [], [])
  }

  /** A line that survives fprintf and fgets with a buffer of CMD_MAX. */
  ghost predicate Writable(line: string) {
    NUL !in line && '\n' !in line && |line| + 2 <= WireBuffers.CMD_MAX
  }

  ghost predicate Enabled(su: Setup, s: State, e: Event) {
    WellFormed(s.cache) &&
    match e
    case Updated(args, _, _) => Writable("update " + args)
    case Dequeued(_) => s.cache.queue != [] && Writable("wrote " + s.cache.queue[0].path)
    case Stored(i) => i < |s.flying| && !s.flying[i].stored
    case WroteLine(i) => i < |s.flying| && s.flying[i].stored && Writable("wrote " + s.flying[i].file.path)
    case Forgot(args) =>
      var p := Parse(su, args);
      p.Parsed? ==> Writable("forget " + p.file.path) && ' ' !in p.file.path && '\\' !in p.file.path
    case ForgetLine(i) => i < |s.forgetting| && Writable("forget " + s.forgetting[i].path)
    case Requeued(queue) => WellFormed(s.cache.(queue := queue))
  }

  function Cut<T>(s: seq<T>, i: nat): seq<T>
    requires i < |s|
  {
    s[..i] + s[i + 1..]
  }

  /** The i-th batch is in the archive. */
  function Marked(flying: seq<Batch>, i: nat): seq<Batch>
    requires i < |flying|
  {
    flying[i := flying[i].(stored := true)]
  }

  /** A forgotten file's batches are none of the journal's business any more. */
  function Orphaned(flying: seq<Batch>, file: File): seq<Batch> {
    if flying == [] then []
    else
      var last := flying[|flying| - 1];
      Orphaned(flying[..|flying| - 1], file) + [if last.file == file then last.(values := []) else last]
  }

  function Next(su: Setup, s: State, e: Event): State
    requires Enabled(su, s, e)
  {
    match e
    case Updated(args, now, flushTime) =>
      if Parse(su, args).Bad? then s
      else s.(cache := DoUpdate(su, s.cache, args, now, flushTime), lines := s.lines + ["update " + args])
    case Dequeued(flushTime) =>
      var file := s.cache.queue[0];
      s.(cache := Take(s.cache, flushTime), flying := s.flying + [Batch(file, s.cache.tree[file].values, false)])
    case Stored(i) => s.(flying := Marked(s.flying, i))
    case WroteLine(i) =>
      s.(lines := s.lines + ["wrote " + s.flying[i].file.path], flying := Cut(s.flying, i))
    case Forgot(args) =>
      var p := Parse(su, args);
      if p.Bad? || p.file !in s.cache.tree then s
      else State(Forget(s.cache, p.file), s.lines, Orphaned(s.flying, p.file), s.forgetting + [p.file])
    case ForgetLine(i) =>
      s.(lines := s.lines + ["forget " + s.forgetting[i].path], forgetting := Cut(s.forgetting, i))
    case Requeued(queue) => s.(cache := s.cache.(queue := queue))
  }

  /** The values of a file that writers hold, in dequeue order. */
  function InFlight(flying: seq<Batch>, file: File): seq<Sample> {
    if flying == [] then []
    else
      var last := flying[|flying| - 1];
      InFlight(flying[..|flying| - 1], file) + if last.file == file then last.values else []
  }

  // ----- what replay rebuilds

  /** Replay has the file exactly if the cache has it, with the same newest stamp
      and with the values still in flight before the pending ones. */
  ghost predicate Same(s: State, c: Cache, f: File) {
    && (f in c.tree <==> f in s.cache.tree)
    && (f in c.tree ==>
          && c.tree[f].stamp == s.cache.tree[f].stamp
          && c.tree[f].values == InFlight(s.flying, f) + s.cache.tree[f].values)
  }

  ghost predicate Agrees(s: State, c: Cache) {
    forall f :: f !in s.forgetting ==> Same(s, c, f)
  }

  /** The line comes before anything else happened to the file: a `wrote` line
      before another value of it was accepted or taken, a `forget` line before
      another UPDATE made the file known again. */
  ghost predicate InTime(s: State, e: Event) {
    match e
    case WroteLine(i) =>
      i < |s.flying| ==>
        var f := s.flying[i].file;
        f in s.forgetting || f !in s.cache.tree
        || InFlight(Cut(s.flying, i), f) + s.cache.tree[f].values == []
    case ForgetLine(i) =>
      i < |s.forgetting| ==>
        s.forgetting[i] in Cut(s.forgetting, i) || s.forgetting[i] !in s.cache.tree
    case _ => true
  }

  /** Every forgotten file that waits for its line has a name that replay reads back. */
  ghost predicate Named(su: Setup, s: State) {
    forall f :: f in s.forgetting ==> Parse(su, f.path).Parsed? && Parse(su, f.path).file == f
  }

  ghost predicate Rooted(su: Setup) {
    su.base != "" ==> su.base[0] == '/'
  }

  lemma ForgottenNameReadsBack(su: Setup, args: string)
    requires Rooted(su) && Parse(su, args).Parsed?
    requires var path := Parse(su, args).file.path; NUL !in path && ' ' !in path && '\\' !in path
    ensures var path := Parse(su, args).file.path;
            Parse(su, path).Parsed? && Parse(su, path).file == File(path)
  {
    ScanWord(Parse(su, args).file.path, "");
  }

  /** Writers hold nothing for a file the tree does not know. */
  ghost predicate NothingOwed(s: State) {
    forall f :: f !in s.cache.tree ==> InFlight(s.flying, f) == []
  }

  lemma UpdateKeepsSame(su: Setup, s: State, c: Cache, e: Event, now: int, flushTime: int, f: File)
    requires Enabled(su, s, e) && e.Updated? && Parse(su, e.args).Parsed?
    requires Same(s, c, f) && NothingOwed(s)
    ensures Same(Next(su, s, e), DoUpdate(su, c, e.args, now, flushTime), f)
  {
    var p := Parse(su, e.args);
    if f == p.file {
      var known := f in c.tree;
      var replayed := if known then c.tree[f] else Item([], 0.0, flushTime);
      var live := if known then s.cache.tree[f] else Item([], 0.0, e.flushTime);
      AddToAccepted(replayed, p.fields);
      AddToAccepted(live, p.fields);
      var held, added := InFlight(s.flying, f), Accepted(live.stamp, p.fields);
      assert held + live.values + added == held + (live.values + added);
    }
  }

  lemma {:induction false} OrphanedHolds(flying: seq<Batch>, file: File, f: File)
    ensures InFlight(Orphaned(flying, file), f) == if f == file then [] else InFlight(flying, f)
  {
    if flying != [] {
      OrphanedHolds(flying[..|flying| - 1], file, f);
      var o := Orphaned(flying, file);
      assert o[..|o| - 1] == Orphaned(flying[..|flying| - 1], file);
    }
  }

  lemma {:induction false} CutHolds(flying: seq<Batch>, i: nat, f: File)
    requires i < |flying|
    ensures flying[i].file != f ==> InFlight(Cut(flying, i), f) == InFlight(flying, f)
    ensures InFlight(flying, f) == [] ==> InFlight(Cut(flying, i), f) == []
  {
    var n := |flying| - 1;
    if i == n {
      assert Cut(flying, i) == flying[..n];
    } else {
      CutHolds(flying[..n], i, f);
      assert Cut(flying, i)[..n - 1] == Cut(flying[..n], i);
    }
  }

  lemma OneMore(flying: seq<Batch>, b: Batch, f: File)
    ensures InFlight(flying + [b], f) == InFlight(flying, f) + if b.file == f then b.values else []
  {
    assert (flying + [b])[..|flying|] == flying;
  }

  lemma {:induction false} MarkedHolds(flying: seq<Batch>, i: nat, f: File)
    requires i < |flying|
    ensures InFlight(Marked(flying, i), f) == InFlight(flying, f)
  {
    var n := |flying| - 1;
    if i == n {
      assert Marked(flying, i)[..n] == flying[..n];
    } else {
      MarkedHolds(flying[..n], i, f);
      assert Marked(flying, i)[..n] == Marked(flying[..n], i);
    }
  }

  lemma DequeueKeepsSame(su: Setup, s: State, c: Cache, e: Event, f: File)
    requires Enabled(su, s, e) && e.Dequeued? && Same(s, c, f)
    ensures Same(Next(su, s, e), c, f)
  {
    var file := s.cache.queue[0];
    OneMore(s.flying, Batch(file, s.cache.tree[file].values, false), f);
    var held := InFlight(s.flying, f);
    if f == file {
      assert held + s.cache.tree[f].values + [] == held + s.cache.tree[f].values;
    } else {
      assert held + [] == held;
    }
  }

  lemma ForgetKeepsSame(su: Setup, s: State, c: Cache, e: Event, f: File)
    requires Enabled(su, s, e) && e.Forgot? && Same(s, c, f) && f !in Next(su, s, e).forgetting
    ensures Same(Next(su, s, e), c, f)
  {
    var p := Parse(su, e.args);
    if p.Parsed? && p.file in s.cache.tree {
      assert p.file in Next(su, s, e).forgetting;
      OrphanedHolds(s.flying, p.file, f);
    }
  }

  lemma StepOwesNothing(su: Setup, s: State, e: Event)
    requires Enabled(su, s, e) && NothingOwed(s)
    ensures NothingOwed(Next(su, s, e))
  {
    var t := Next(su, s, e);
    forall f | f !in t.cache.tree
      ensures InFlight(t.flying, f) == []
    {
      match e
      case Dequeued(_) =>
        OneMore(s.flying, Batch(s.cache.queue[0], s.cache.tree[s.cache.queue[0]].values, false), f);
      case Stored(i) => MarkedHolds(s.flying, i, f);
      case WroteLine(i) => CutHolds(s.flying, i, f);
      case Forgot(args) =>
        if Parse(su, args).Parsed? {
          OrphanedHolds(s.flying, Parse(su, args).file, f);
        }
      case _ =>
    }
  }

  lemma WroteLineKeepsSame(su: Setup, s: State, c: Cache, i: nat, flushTime: int, f: File)
    requires Enabled(su, s, WroteLine(i)) && Same(s, c, f)
    ensures Same(Next(su, s, WroteLine(i)), Wrote(c, s.flying[i].file, flushTime), f)
            <==> f == s.flying[i].file && f in s.cache.tree
                 ==> InFlight(Cut(s.flying, i), f) + s.cache.tree[f].values == []
  {
    CutHolds(s.flying, i, f);
  }

  lemma ForgetLineKeepsSame(su: Setup, s: State, c: Cache, i: nat, f: File)
    requires Enabled(su, s, ForgetLine(i)) && (f in s.forgetting ==> f == s.forgetting[i])
    requires f !in s.forgetting ==> Same(s, c, f)
    ensures Same(Next(su, s, ForgetLine(i)), Forget(c, s.forgetting[i]), f)
            <==> f == s.forgetting[i] ==> f !in s.cache.tree
  {
    if f != s.forgetting[i] {
      assert f !in s.forgetting;
    }
  }

  lemma CutMembers<T>(s: seq<T>, i: nat, x: T)
    requires i < |s|
    ensures x in s <==> x == s[i] || x in Cut(s, i)
  {
    if x in s && x != s[i] {
      var k :| 0 <= k < |s| && s[k] == x;
      assert x == Cut(s, i)[if k < i then k else k - 1];
    }
  }

  // ----- one step

  ghost predicate Sound(su: Setup, s: State) {
    Rooted(su) && NothingOwed(s) && Named(su, s)
  }

  lemma ReplayOneMore(su: Setup, lines: seq<string>, line: string, now: int, flush: nat -> int)
    ensures Replay(su, lines + [line], now, flush)
         == Handle(su, Replay(su, lines, now, flush), line, now, flush(|lines|))
  {
    assert (lines + [line])[..|lines|] == lines;
  }

  lemma StepIsSound(su: Setup, s: State, e: Event)
    requires Enabled(su, s, e) && Sound(su, s)
    ensures Sound(su, Next(su, s, e))
  {
    StepOwesNothing(su, s, e);
    match e
    case Forgot(args) =>
      var p := Parse(su, args);
      if p.Parsed? && p.file in s.cache.tree {
        ForgottenNameReadsBack(su, args);
      }
    case ForgetLine(i) =>
      forall f | f in Next(su, s, e).forgetting
        ensures f in s.forgetting
      {
        CutMembers(s.forgetting, i, f);
      }
    case _ =>
  }

  lemma UpdateAgrees(su: Setup, s: State, e: Event, now: int, flush: nat -> int)
    requires Enabled(su, s, e) && Sound(su, s) && e.Updated?
    requires Agrees(s, Replay(su, s.lines, now, flush))
    ensures Agrees(Next(su, s, e), Replay(su, Next(su, s, e).lines, now, flush))
  {
    if Parse(su, e.args).Parsed? {
      var c := Replay(su, s.lines, now, flush);
      ReplayOneMore(su, s.lines, "update " + e.args, now, flush);
      HandleUpdate(su, c, e.args, now, flush(|s.lines|));
      forall f | f !in s.forgetting
        ensures Same(Next(su, s, e), DoUpdate(su, c, e.args, now, flush(|s.lines|)), f)
      {
        UpdateKeepsSame(su, s, c, e, now, flush(|s.lines|), f);
      }
    }
  }

  lemma UnloggedAgrees(su: Setup, s: State, e: Event, c: Cache)
    requires Enabled(su, s, e) && Sound(su, s) && (e.Dequeued? || e.Stored? || e.Forgot? || e.Requeued?)
    requires Agrees(s, c)
    ensures Agrees(Next(su, s, e), c)
  {
    var t := Next(su, s, e);
    forall f | f !in t.forgetting
      ensures Same(t, c, f)
    {
      assert f !in s.forgetting;
      match e
      case Dequeued(_) => DequeueKeepsSame(su, s, c, e, f);
      case Stored(i) => MarkedHolds(s.flying, i, f);
      case Forgot(_) => ForgetKeepsSame(su, s, c, e, f);
      case Requeued(_) =>
    }
  }

  lemma WroteLineAgrees(su: Setup, s: State, i: nat, now: int, flush: nat -> int)
    requires Enabled(su, s, WroteLine(i)) && Sound(su, s)
    requires Agrees(s, Replay(su, s.lines, now, flush))
    ensures Agrees(Next(su, s, WroteLine(i)), Replay(su, Next(su, s, WroteLine(i)).lines, now, flush))
            <==> InTime(s, WroteLine(i))
  {
    var c, file := Replay(su, s.lines, now, flush), s.flying[i].file;
    var c', t := Wrote(c, file, flush(|s.lines|)), Next(su, s, WroteLine(i));
    ReplayOneMore(su, s.lines, "wrote " + file.path, now, flush);
    HandleWrote(su, c, file.path, now, flush(|s.lines|));
    forall f | f !in s.forgetting
      ensures Same(t, c', f) <==> (f == file && f in s.cache.tree
                ==> InFlight(Cut(s.flying, i), f) + s.cache.tree[f].values == [])
    {
      WroteLineKeepsSame(su, s, c, i, flush(|s.lines|), f);
    }
  }

  lemma ForgetLineAgrees(su: Setup, s: State, i: nat, now: int, flush: nat -> int)
    requires Enabled(su, s, ForgetLine(i)) && Sound(su, s)
    requires Agrees(s, Replay(su, s.lines, now, flush))
    ensures Agrees(Next(su, s, ForgetLine(i)), Replay(su, Next(su, s, ForgetLine(i)).lines, now, flush))
            <==> InTime(s, ForgetLine(i))
  {
    var c, file := Replay(su, s.lines, now, flush), s.forgetting[i];
    var c', t := Forget(c, file), Next(su, s, ForgetLine(i));
    ReplayOneMore(su, s.lines, "forget " + file.path, now, flush);
    HandleForget(su, c, file.path, now, flush(|s.lines|));
    assert DoForget(su, c, file.path) == c' by {
      assert file in s.forgetting;
    }
    forall f | f !in t.forgetting
      ensures Same(t, c', f) <==> (f == file ==> f !in s.cache.tree)
    {
      CutMembers(s.forgetting, i, f);
      ForgetLineKeepsSame(su, s, c, i, f);
    }
    CutMembers(s.forgetting, i, file);
  }

  /** A step keeps what replay rebuilds in agreement exactly when its line comes
      in time. */
  lemma StepAgrees(su: Setup, s: State, e: Event, now: int, flush: nat -> int)
    requires Enabled(su, s, e) && Sound(su, s) && Agrees(s, Replay(su, s.lines, now, flush))
    ensures Agrees(Next(su, s, e), Replay(su, Next(su, s, e).lines, now, flush)) <==> InTime(s, e)
  {
    match e
    case Updated(_, _, _) => UpdateAgrees(su, s, e, now, flush);
    case WroteLine(i) => WroteLineAgrees(su, s, i, now, flush);
    case ForgetLine(i) => ForgetLineAgrees(su, s, i, now, flush);
    case _ => UnloggedAgrees(su, s, e, Replay(su, s.lines, now, flush));
  }

  // ----- runs

  ghost predicate Legal(su: Setup, events: seq<Event>)
    decreases |events|, 0
  {
    events != [] ==>
      var n := |events| - 1;
      Legal(su, events[..n]) && Enabled(su, Run(su, events[..n]), events[n])
  }

  ghost function Run(su: Setup, events: seq<Event>): State
    requires Legal(su, events)
    decreases |events|, 1
  {
    if events == [] then Start()
    else
      var n := |events| - 1;
      Next(su, Run(su, events[..n]), events[n])
  }

  ghost predicate AllInTime(su: Setup, events: seq<Event>)
    requires Legal(su, events)
    decreases |events|
  {
    events != [] ==>
      var n := |events| - 1;
      AllInTime(su, events[..n]) && InTime(Run(su, events[..n]), events[n])
  }

  /** Every run whose lines come in time is rebuilt by replaying its journal. */
  lemma {:induction false} ReplayRebuilds(su: Setup, events: seq<Event>, now: int, flush: nat -> int)
    requires Rooted(su) && Legal(su, events) && AllInTime(su, events)
    ensures Sound(su, Run(su, events))
    ensures Agrees(Run(su, events), Replay(su, Run(su, events).lines, now, flush))
    decreases |events|
  {
    if events != [] {
      var n := |events| - 1;
      var s := Run(su, events[..n]);
      ReplayRebuilds(su, events[..n], now, flush);
      StepIsSound(su, s, events[n]);
      StepAgrees(su, s, events[n], now, flush);
    }
  }

  /** The same files, each with the same pending values and newest stamp. */
  ghost predicate SameTree(c: Cache, d: Cache) {
    && c.tree.Keys == d.tree.Keys
    && forall f :: f in c.tree ==> c.tree[f].values == d.tree[f].values && c.tree[f].stamp == d.tree[f].stamp
  }

  predicate AtRest(s: State) {
    s.flying == [] && s.forgetting == []
  }

  lemma RebuiltAtRest(s: State, c: Cache)
    requires AtRest(s)
    ensures Agrees(s, c) <==> SameTree(s.cache, c)
  {
    forall f
      ensures Same(s, c, f) <==>
        && (f in c.tree.Keys <==> f in s.cache.tree.Keys)
        && (f in c.tree ==> c.tree[f].stamp == s.cache.tree[f].stamp && c.tree[f].values == s.cache.tree[f].values)
    {
      assert f in s.cache.tree ==> [] + s.cache.tree[f].values == s.cache.tree[f].values;
    }
    if Agrees(s, c) {
      assert forall f :: Same(s, c, f);
      assert s.cache.tree.Keys == c.tree.Keys;
    }
  }

  // ----- histories of undivided requests

  datatype Request =
    | UpdateOf(args: string, now: int, flushTime: int)
    | WriteOut(flushTime: int)
    | ForgetOf(args: string)
    | Requeue(queue: seq<File>)

  /** The first step of a request. */
  function First(r: Request): Event {
    match r
    case UpdateOf(args, now, flushTime) => Updated(args, now, flushTime)
    case WriteOut(flushTime) => Dequeued(flushTime)
    case ForgetOf(args) => Forgot(args)
    case Requeue(queue) => Requeued(queue)
  }

  /** The state after a request whose journal line follows at once. */
  ghost function Serve(su: Setup, s: State, r: Request): (t: State)
    requires AtRest(s) && Enabled(su, s, First(r))
    ensures AtRest(t)
  {
    var t := Next(su, s, First(r));
    if r.WriteOut? then Next(su, Next(su, t, Stored(0)), WroteLine(0))
    else if t.forgetting != [] then Next(su, t, ForgetLine(0))
    else t
  }

  ghost predicate Served(su: Setup, requests: seq<Request>)
    decreases |requests|, 0
  {
    requests != [] ==>
      var n := |requests| - 1;
      Served(su, requests[..n]) && Enabled(su, History(su, requests[..n]), First(requests[n]))
  }

  ghost function History(su: Setup, requests: seq<Request>): (s: State)
    requires Served(su, requests)
    ensures AtRest(s)
    decreases |requests|, 1
  {
    if requests == [] then Start()
    else
      var n := |requests| - 1;
      Serve(su, History(su, requests[..n]), requests[n])
  }

  lemma ServeAgrees(su: Setup, s: State, r: Request, now: int, flush: nat -> int)
    requires AtRest(s) && Enabled(su, s, First(r)) && Sound(su, s)
    requires Agrees(s, Replay(su, s.lines, now, flush))
    ensures var t := Serve(su, s, r); Sound(su, t) && Agrees(t, Replay(su, t.lines, now, flush))
  {
    var t := Next(su, s, First(r));
    StepIsSound(su, s, First(r));
    StepAgrees(su, s, First(r), now, flush);
    if r.WriteOut? {
      var u := Next(su, t, Stored(0));
      StepIsSound(su, t, Stored(0));
      StepAgrees(su, t, Stored(0), now, flush);
      StepIsSound(su, u, WroteLine(0));
      StepAgrees(su, u, WroteLine(0), now, flush);
    } else if t.forgetting != [] {
      StepIsSound(su, t, ForgetLine(0));
      StepAgrees(su, t, ForgetLine(0), now, flush);
    }
  }

  /** Replaying the journal of any history of UPDATE, write-out and FORGET from an
      empty cache rebuilds the tree, its pending values and its stamps. */
  lemma {:induction false} HistoryReplays(su: Setup, requests: seq<Request>, now: int, flush: nat -> int)
    requires Rooted(su) && Served(su, requests)
    ensures Sound(su, History(su, requests))
    ensures SameTree(History(su, requests).cache, Replay(su, History(su, requests).lines, now, flush))
    decreases |requests|
  {
    var c := Replay(su, History(su, requests).lines, now, flush);
    if requests != [] {
      var n := |requests| - 1;
      HistoryReplays(su, requests[..n], now, flush);
      var s := History(su, requests[..n]);
      RebuiltAtRest(s, Replay(su, s.lines, now, flush));
      ServeAgrees(su, s, requests[n], now, flush);
    }
    RebuiltAtRest(History(su, requests), c);
  }

  // ----- the file

  /** The journal file, as fprintf fills it. */
  function Text(lines: seq<string>): string {
    if lines == [] then "" else Text(lines[..|lines| - 1]) + lines[|lines| - 1] + "\n"
  }

  /** How much fgets takes: a line with its newline, the rest of the file, or as
      much as the entry buffer holds. */
  ghost function Gets(text: string): (n: nat)
    requires text != ""
    ensures 0 < n <= |text|
  {
    var room := WireBuffers.CMD_MAX - 1;
    var n := if '\n' in text then Wire.Eol(text) + 1 else |text|;
    if n <= room then n else room
  }

  /** An entry whose last character is a newline, as strlen finds it. */
  predicate Sealed(entry: string) {
    entry != "" && entry[|entry| - 1] == '\n' && NUL !in entry
  }

  /** The entries that replay handles: those that end in a newline and hold no NUL. */
  ghost function Entries(text: string): seq<string>
    decreases |text|
  {
    if text == "" then []
    else
      var n := Gets(text);
      (if Sealed(text[..n]) then [text[..n - 1]] else []) + Entries(text[n..])
  }

  /** fgets with the entry buffer. */
  method FGets(text: string, pos: nat) returns (n: nat)
    requires pos < |text|
    ensures n == Gets(text[pos..])
  {
    ghost var s := text[pos..];
    n := 1;
    while n < WireBuffers.CMD_MAX - 1 && pos + n < |text| && text[pos + n - 1] != '\n'
      invariant n <= WireBuffers.CMD_MAX - 1 && pos + n <= |text|
      invariant forall j :: 0 <= j < n - 1 ==> s[j] != '\n'
    {
      assert s[n - 1] == text[pos + n - 1];
      n := n + 1;
    }
    assert s[n - 1] == text[pos + n - 1];
    if s[n - 1] == '\n' {
      assert Wire.FirstEol(s, n - 1);
    } else if '\n' in s {
      assert Wire.Eol(s) >= n;
    }
  }

  lemma EntriesStep(done: seq<string>, text: string)
    requires text != ""
    ensures var n := Gets(text);
            done + Entries(text)
            == (if Sealed(text[..n]) then done + [text[..n - 1]] else done) + Entries(text[n..])
  {
    var n := Gets(text);
    var more, first := Entries(text[n..]), text[..n - 1];
    if Sealed(text[..n]) {
      assert Entries(text) == [first] + more;
      assert done + ([first] + more) == done + [first] + more;
    } else {
      assert Entries(text) == [] + more == more;
    }
  }

  lemma Slices(text: string, pos: nat, n: nat)
    requires n > 0 && pos + n <= |text|
    ensures text[pos..][n..] == text[pos + n..] && text[pos..][..n] == text[pos..pos + n]
    ensures text[pos..pos + n][..n - 1] == text[pos..][..n - 1]
  {
  }

  /** The check of the last character finds the entries that are sealed. */
  lemma SealedByLength(text: string, entry: string, len: nat)
    requires text != "" && entry == text[..Gets(text)]
    requires len <= |entry| && NUL !in entry[..len] && (len < |entry| ==> entry[len] == NUL)
    ensures len > 0 && entry[len - 1] == '\n' <==> Sealed(entry)
    ensures Sealed(entry) ==> len == |entry|
  {
    if len < |entry| {
      assert NUL in entry;
      if len > 0 {
        GetsOneLine(text, len - 1);
      }
    } else {
      assert entry[..len] == entry;
    }
  }

  /** strlen. */
  method StrLen(entry: string) returns (l: nat)
    ensures l <= |entry| && NUL !in entry[..l] && (l < |entry| ==> entry[l] == NUL)
  {
    l := 0;
    while l < |entry| && entry[l] != NUL
      invariant l <= |entry| && NUL !in entry[..l]
    {
      assert entry[..l + 1] == entry[..l] + [entry[l]];
      l := l + 1;
    }
  }

  /** fgets returns a line only as its last character. */
  lemma GetsOneLine(text: string, j: nat)
    requires text != "" && j + 1 < Gets(text)
    ensures text[j] != '\n'
  {
    if '\n' in text {
      assert Wire.FirstEol(text, Wire.Eol(text));
    }
  }

  /** The check of the last character that strlen finds; the newline becomes a zero. */
  method CheckEntry(text: string, pos: nat, n: nat) returns (sealed: bool, entry: string)
    requires pos < |text| && n == Gets(text[pos..])
    ensures sealed == Sealed(text[pos..][..n]) && (sealed ==> entry == text[pos..][..n - 1])
  {
    Slices(text, pos, n);
    entry := text[pos..pos + n];
    var len := StrLen(entry);
    SealedByLength(text[pos..], entry, len);
    sealed := len > 0 && entry[len - 1] == '\n';
    if sealed {
      entry := entry[..len - 1];
    }
  }

  /** journal_replay: entries that do not end in a newline are skipped. */
  method ReplayFile(su: Setup, text: string, now: int, flush: nat -> int) returns (c: Cache)
    ensures c == Replay(su, Entries(text), now, flush)
  {
    c := Cache(map[], []);
    var pos, count := 0, 0;
    ghost var done, rest, all := [], text, Entries(text);
    assert text[0..] == text;
    while pos < |text|
      invariant pos <= |text| && rest == text[pos..] && count == |done|
      invariant all == done + Entries(rest) && c == Replay(su, done, now, flush)
    {
      var n := FGets(text, pos);
      EntriesStep(done, rest);
      var sealed, entry := CheckEntry(text, pos, n);
      Slices(text, pos, n);
      if sealed {
        ReplayOneMore(su, done, entry, now, flush);
        c := Handle(su, c, entry, now, flush(count));
        count := count + 1;
        done := done + [entry];
      }
      pos := pos + n;
      rest := rest[n..];
    }
    assert all == done;
  }

  lemma GetsFirst(line: string, text: string)
    requires Writable(line)
    ensures Gets(line + "\n" + text) == |line| + 1
  {
    assert (line + "\n" + text)[|line|] == '\n';
    assert Wire.FirstEol(line + "\n" + text, |line|);
  }

  lemma EntryFirst(line: string, text: string)
    requires Writable(line)
    ensures Entries(line + "\n" + text) == [line] + Entries(text)
  {
    GetsFirst(line, text);
    var all := line + "\n" + text;
    assert all[..|line|] == line && all[|line| + 1..] == text;
  }

  /** Entries are shorter than the buffer by the newline and the final zero. */
  lemma {:induction false} EntriesShort(text: string)
    ensures forall e :: e in Entries(text) ==> |e| + 2 <= WireBuffers.CMD_MAX
    decreases |text|
  {
    if text != "" {
      EntriesShort(text[Gets(text)..]);
    }
  }

  /** A line is read back as the one entry it was written as exactly if the entry
      buffer has room for it, its newline and the final zero. */
  lemma OneEntry(line: string)
    requires NUL !in line && '\n' !in line
    ensures Entries(line + "\n") == [line] <==> |line| + 2 <= 4096
  {
    if Writable(line) {
      EntryFirst(line, "");
      assert line + "\n" + "" == line + "\n";
    } else {
      EntriesShort(line + "\n");
      assert line in [line];
    }
  }

  lemma {:induction false} TextFirst(lines: seq<string>)
    requires lines != []
    ensures Text(lines) == lines[0] + "\n" + Text(lines[1..])
  {
    var n := |lines| - 1;
    if n > 0 {
      TextFirst(lines[..n]);
      assert lines[1..][..n - 1] == lines[..n][1..];
    }
  }

  /** A journal that is cut anywhere, as by a crash in the middle of a write,
      yields its complete lines. */
  lemma {:induction false} TornJournal(lines: seq<string>, k: nat) returns (n: nat)
    requires (forall l :: l in lines ==> Writable(l)) && k <= |Text(lines)|
    ensures n <= |lines| && Entries(Text(lines)[..k]) == lines[..n]
    ensures |Text(lines[..n])| <= k && (n < |lines| ==> k <= |Text(lines[..n])| + |lines[n]|)
  {
    n := 0;
    if lines != [] {
      var line, tail := lines[0], lines[1..];
      TextFirst(lines);
      TextLength(line, Text(tail));
      if k <= |line| {
        NoEntry(line, Text(tail), k);
      } else {
        n := TornJournal(tail, k - |line| - 1);
        TornFirst(lines, k, n);
        assert n < |tail| ==> lines[n + 1] == tail[n];
        n := n + 1;
      }
    }
  }

  lemma TornFirst(lines: seq<string>, k: nat, n: nat)
    requires lines != [] && Writable(lines[0]) && n < |lines|
    requires |lines[0]| < k <= |lines[0]| + 1 + |Text(lines[1..])|
    requires Entries(Text(lines[1..])[..k - |lines[0]| - 1]) == lines[1..][..n]
    ensures Entries((lines[0] + "\n" + Text(lines[1..]))[..k]) == lines[..n + 1]
    ensures |Text(lines[..n + 1])| == |lines[0]| + 1 + |Text(lines[1..][..n])|
  {
    var line, text, first := lines[0], Text(lines[1..]), lines[..n + 1];
    assert first == [line] + lines[1..][..n] && first[1..] == lines[1..][..n];
    CutBehind(line, text, k);
    EntryFirst(line, text[..k - |line| - 1]);
    TextFirst(first);
    TextLength(line, Text(first[1..]));
  }

  lemma TextLength(line: string, text: string)
    ensures |line + "\n" + text| == |line| + 1 + |text|
  {
  }

  lemma CutBehind(line: string, text: string, k: nat)
    requires |line| < k <= |line| + 1 + |text|
    ensures (line + "\n" + text)[..k] == line + "\n" + text[..k - |line| - 1]
  {
  }

  lemma NoEntry(line: string, text: string, k: nat)
    requires Writable(line) && k <= |line|
    ensures Entries((line + "\n" + text)[..k]) == []
  {
    assert (line + "\n" + text)[..k] == line[..k];
    assert k > 0 ==> line[..k][k - 1] != '\n' && line[..k][k..] == "";
  }

  lemma StepLines(su: Setup, s: State, e: Event)
    requires Enabled(su, s, e)
    ensures var after := Next(su, s, e).lines;
            (after == s.lines && after[..|s.lines|] == s.lines)
            || (|after| == |s.lines| + 1 && after[..|s.lines|] == s.lines && Writable(after[|s.lines|]))
  {
  }

  lemma SamePrefix<T>(before: seq<T>, after: seq<T>, n: nat)
    requires n <= |before| <= |after| && after[..|before|] == before
    ensures after[..n] == before[..n]
  {
    assert before[..n] == after[..|before|][..n];
  }

  /** The journal held the first `n` of a run's lines after some part of the run. */
  lemma {:induction false} LinesOfPart(su: Setup, events: seq<Event>, n: nat) returns (m: nat)
    requires Legal(su, events) && AllInTime(su, events) && n <= |Run(su, events).lines|
    ensures m <= |events| && Legal(su, events[..m]) && AllInTime(su, events[..m])
    ensures Run(su, events[..m]).lines == Run(su, events).lines[..n]
    decreases |events|
  {
    m := |events|;
    assert events[..m] == events;
    var lines := Run(su, events).lines;
    if n == |lines| {
      assert lines[..n] == lines;
    } else {
      var k := |events| - 1;
      var part := events[..k];
      StepLines(su, Run(su, part), events[k]);
      m := LinesOfPart(su, part, n);
      assert part[..m] == events[..m];
      SamePrefix(Run(su, part).lines, lines, n);
    }
  }

  lemma {:induction false} LinesWritable(su: Setup, events: seq<Event>)
    requires Legal(su, events)
    ensures forall l :: l in Run(su, events).lines ==> Writable(l)
    decreases |events|
  {
    if events != [] {
      var k := |events| - 1;
      var before, lines := Run(su, events[..k]).lines, Run(su, events).lines;
      LinesWritable(su, events[..k]);
      StepLines(su, Run(su, events[..k]), events[k]);
      assert forall l :: l in lines ==> l in before || l == lines[|lines| - 1];
    }
  }

  /** After a crash that cuts the journal anywhere, replay rebuilds a state that
      the run went through, with the values in flight at that point. */
  lemma CrashRecovers(su: Setup, events: seq<Event>, k: nat, now: int, flush: nat -> int) returns (m: nat)
    requires Rooted(su) && Legal(su, events) && AllInTime(su, events)
    requires k <= |Text(Run(su, events).lines)|
    ensures m <= |events| && Legal(su, events[..m])
    ensures Agrees(Run(su, events[..m]), Replay(su, Entries(Text(Run(su, events).lines)[..k]), now, flush))
    ensures Run(su, events[..m]).lines == Entries(Text(Run(su, events).lines)[..k])
    ensures k == |Text(Run(su, events).lines)| ==> Run(su, events[..m]).lines == Run(su, events).lines
  {
    var lines := Run(su, events).lines;
    LinesWritable(su, events);
    var n := TornJournal(lines, k);
    m := LinesOfPart(su, events, n);
    ReplayRebuilds(su, events[..m], now, flush);
    if n < |lines| && k == |Text(lines)| {
      TextGrows(lines, n);
    }
    assert lines[..|lines|] == lines;
  }

  lemma {:induction false} TextGrows(lines: seq<string>, n: nat)
    requires n < |lines|
    ensures |Text(lines)| > |Text(lines[..n])| + |lines[n]|
    decreases |lines|
  {
    var k := |lines| - 1;
    if n < k {
      TextGrows(lines[..k], n);
      assert lines[..k][..n] == lines[..n];
    }
  }

  // ----- what a crash loses

  /** The file's entry is dropped. */
  predicate Drops(su: Setup, e: Event, f: File) {
    e.Forgot? && Parse(su, e.args).Parsed? && Parse(su, e.args).file == f
  }

  /** The values of the file that the step accepts. */
  function AcceptedNow(su: Setup, s: State, e: Event, f: File): seq<Sample> {
    if e.Updated? && Parse(su, e.args).Parsed? && Parse(su, e.args).file == f
    then Accepted(if f in s.cache.tree then s.cache.tree[f].stamp else 0.0, Parse(su, e.args).fields)
    else []
  }

  /** The values of the file whose `wrote` line the step adds. */
  function RecordedNow(s: State, e: Event, f: File): seq<Sample> {
    if e.WroteLine? && e.batch < |s.flying| && s.flying[e.batch].file == f then s.flying[e.batch].values else []
  }

  /** The values of a file accepted since it was last forgotten. */
  ghost function AcceptedOf(su: Setup, events: seq<Event>, f: File): seq<Sample>
    requires Legal(su, events)
    decreases |events|
  {
    if events == [] then []
    else
      var n := |events| - 1;
      if Drops(su, events[n], f) then []
      else AcceptedOf(su, events[..n], f) + AcceptedNow(su, Run(su, events[..n]), events[n], f)
  }

  /** Those of them whose `wrote` line is in the journal. */
  ghost function RecordedOf(su: Setup, events: seq<Event>, f: File): seq<Sample>
    requires Legal(su, events)
    decreases |events|
  {
    if events == [] then []
    else
      var n := |events| - 1;
      if Drops(su, events[n], f) then []
      else RecordedOf(su, events[..n], f) + RecordedNow(Run(su, events[..n]), events[n], f)
  }

  function ValuesOf(c: Cache, f: File): seq<Sample> {
    if f in c.tree then c.tree[f].values else []
  }

  /** What the daemon still has of the file: in the hands of writers, and pending. */
  function Held(s: State, f: File): seq<Sample> {
    InFlight(s.flying, f) + ValuesOf(s.cache, f)
  }

  lemma MoreCounts<T>(x: seq<T>, y: seq<T>, l: seq<T>, v: seq<T>)
    requires multiset(x) == multiset(y) + multiset(v)
    ensures multiset(x + l) == multiset(y + l) + multiset(v)
  {
    assert multiset(x + l) == multiset(x) + multiset(l) && multiset(y + l) == multiset(y) + multiset(l);
  }

  lemma CutLast<T>(s: seq<T>, i: nat)
    requires i < |s| - 1
    ensures Cut(s, i) == Cut(s[..|s| - 1], i) + [s[|s| - 1]]
  {
    var n := |s| - 1;
    assert s[..n][..i] == s[..i] && s[i + 1..] == s[..n][i + 1..] + [s[n]];
  }

  lemma {:induction false} CutCounts(flying: seq<Batch>, i: nat, f: File)
    requires i < |flying|
    ensures multiset(InFlight(flying, f))
         == multiset(InFlight(Cut(flying, i), f)) + multiset(if flying[i].file == f then flying[i].values else [])
  {
    var init, last := flying[..|flying| - 1], flying[|flying| - 1];
    assert flying == init + [last];
    if i == |flying| - 1 {
      assert Cut(flying, i) == init;
    } else {
      CutCounts(init, i, f);
      CutLast(flying, i);
      CountsBehind(init, Cut(init, i), last, f, if init[i].file == f then init[i].values else []);
    }
  }

  lemma CountsBehind(flying: seq<Batch>, cut: seq<Batch>, last: Batch, f: File, v: seq<Sample>)
    requires multiset(InFlight(flying, f)) == multiset(InFlight(cut, f)) + multiset(v)
    ensures multiset(InFlight(flying + [last], f)) == multiset(InFlight(cut + [last], f)) + multiset(v)
  {
    OneMore(flying, last, f);
    OneMore(cut, last, f);
    MoreCounts(InFlight(flying, f), InFlight(cut, f), if last.file == f then last.values else [], v);
  }

  lemma AcceptedStep(su: Setup, s: State, e: Event, f: File)
    requires Enabled(su, s, e) && e.Updated?
    ensures Held(Next(su, s, e), f) == Held(s, f) + AcceptedNow(su, s, e, f)
  {
    var p := Parse(su, e.args);
    if p.Parsed? && p.file == f {
      var it := if f in s.cache.tree then s.cache.tree[f] else Item([], 0.0, e.flushTime);
      AddToAccepted(it, p.fields);
      var held := InFlight(s.flying, f);
      assert held + (it.values + Accepted(it.stamp, p.fields)) == held + it.values + Accepted(it.stamp, p.fields);
    }
  }

  lemma DequeuedStep(su: Setup, s: State, e: Event, f: File)
    requires Enabled(su, s, e) && e.Dequeued?
    ensures Held(Next(su, s, e), f) == Held(s, f)
  {
    var file := s.cache.queue[0];
    OneMore(s.flying, Batch(file, s.cache.tree[file].values, false), f);
  }

  lemma WroteStep(su: Setup, s: State, i: nat, f: File)
    requires Enabled(su, s, WroteLine(i))
    ensures multiset(Held(s, f))
         == multiset(Held(Next(su, s, WroteLine(i)), f)) + multiset(RecordedNow(s, WroteLine(i), f))
  {
    CutCounts(s.flying, i, f);
  }

  lemma OtherForgotten(su: Setup, s: State, e: Event, f: File)
    requires Enabled(su, s, e) && e.Forgot? && !Drops(su, e, f)
    ensures Held(Next(su, s, e), f) == Held(s, f)
  {
    if Parse(su, e.args).Parsed? {
      OrphanedHolds(s.flying, Parse(su, e.args).file, f);
    }
  }

  /** A step neither loses nor doubles a value: what it accepts is held, and what
      is not held any more is recorded as written. */
  lemma StepCounts(su: Setup, s: State, e: Event, f: File)
    requires Enabled(su, s, e) && !Drops(su, e, f)
    ensures multiset(Held(s, f)) + multiset(AcceptedNow(su, s, e, f))
         == multiset(Held(Next(su, s, e), f)) + multiset(RecordedNow(s, e, f))
  {
    match e
    case Updated(_, _, _) => AcceptedStep(su, s, e, f);
    case Dequeued(_) => DequeuedStep(su, s, e, f);
    case Stored(i) => MarkedHolds(s.flying, i, f);
    case WroteLine(i) => WroteStep(su, s, i, f);
    case Forgot(_) => OtherForgotten(su, s, e, f);
    case _ =>
  }

  lemma DropHoldsNothing(su: Setup, s: State, e: Event, f: File)
    requires Enabled(su, s, e) && Drops(su, e, f) && NothingOwed(s)
    ensures Held(Next(su, s, e), f) == []
  {
    if f in s.cache.tree {
      OrphanedHolds(s.flying, f, f);
      assert f !in Next(su, s, e).cache.tree;
    } else {
      assert Next(su, s, e) == s;
    }
  }

  lemma AddUp<T>(a: multiset<T>, w: multiset<T>, h: multiset<T>, more: multiset<T>, h': multiset<T>, out: multiset<T>)
    requires a == w + h && h + more == h' + out
    ensures a + more == w + out + h'
  {
    assert a + more == w + (h + more);
  }

  lemma CountsStep(su: Setup, s: State, e: Event, f: File, a: seq<Sample>, w: seq<Sample>)
    requires Enabled(su, s, e) && !Drops(su, e, f) && multiset(a) == multiset(w) + multiset(Held(s, f))
    ensures multiset(a + AcceptedNow(su, s, e, f))
         == multiset(w + RecordedNow(s, e, f)) + multiset(Held(Next(su, s, e), f))
  {
    StepCounts(su, s, e, f);
    AddUp(multiset(a), multiset(w), multiset(Held(s, f)), multiset(AcceptedNow(su, s, e, f)),
          multiset(Held(Next(su, s, e), f)), multiset(RecordedNow(s, e, f)));
  }

  lemma {:induction false} RunOwesNothing(su: Setup, events: seq<Event>)
    requires Legal(su, events)
    ensures NothingOwed(Run(su, events))
    decreases |events|
  {
    if events != [] {
      var n := |events| - 1;
      RunOwesNothing(su, events[..n]);
      StepOwesNothing(su, Run(su, events[..n]), events[n]);
    }
  }

  /** In every run, the values accepted since a file was last forgotten are those
      that the journal records as written and those the daemon holds, each as often. */
  lemma {:induction false} RunCounts(su: Setup, events: seq<Event>, f: File)
    requires Legal(su, events)
    ensures multiset(AcceptedOf(su, events, f))
         == multiset(RecordedOf(su, events, f)) + multiset(Held(Run(su, events), f))
    decreases |events|
  {
    if events != [] {
      var n := |events| - 1;
      var s, e := Run(su, events[..n]), events[n];
      if Drops(su, e, f) {
        RunOwesNothing(su, events[..n]);
        DropHoldsNothing(su, s, e, f);
      } else {
        RunCounts(su, events[..n], f);
        CountsStep(su, s, e, f, AcceptedOf(su, events[..n], f), RecordedOf(su, events[..n], f));
      }
    }
  }

  lemma RebuiltIsHeld(s: State, c: Cache, f: File)
    requires Agrees(s, c) && NothingOwed(s) && f !in s.forgetting
    ensures ValuesOf(c, f) == Held(s, f)
  {
    assert Same(s, c, f);
  }

  /** After a crash that cuts the journal anywhere, every value of a file that is not
      being forgotten is recorded as written or rebuilt by replay, once, if its
      line survived: the surviving lines are those of the first m steps, and the
      values are those these steps accepted. */
  lemma NothingLost(su: Setup, events: seq<Event>, k: nat, now: int, flush: nat -> int) returns (m: nat)
    requires Rooted(su) && Legal(su, events) && AllInTime(su, events)
    requires k <= |Text(Run(su, events).lines)|
    ensures m <= |events| && Legal(su, events[..m])
    ensures Run(su, events[..m]).lines == Entries(Text(Run(su, events).lines)[..k])
    ensures forall f :: f !in Run(su, events[..m]).forgetting ==>
              multiset(AcceptedOf(su, events[..m], f))
              == multiset(RecordedOf(su, events[..m], f))
                 + multiset(ValuesOf(Replay(su, Entries(Text(Run(su, events).lines)[..k]), now, flush), f))
  {
    m := CrashRecovers(su, events, k, now, flush);
    var s := Run(su, events[..m]);
    var c := Replay(su, Entries(Text(Run(su, events).lines)[..k]), now, flush);
    forall f | f !in s.forgetting
      ensures multiset(AcceptedOf(su, events[..m], f))
           == multiset(RecordedOf(su, events[..m], f)) + multiset(ValuesOf(c, f))
    {
      RunCounts(su, events[..m], f);
      RunOwesNothing(su, events[..m]);
      RebuiltIsHeld(s, c, f);
    }
  }

  /** The line of an UPDATE is among the lines of the first m steps exactly if the
      UPDATE is one of these steps. */
  lemma SurvivesExactly(su: Setup, events: seq<Event>, m: nat, j: nat)
    requires Legal(su, events) && m <= |events| && j < |events|
    requires events[j].Updated? && Parse(su, events[j].args).Parsed?
    ensures Legal(su, events[..j]) && Legal(su, events[..m])
    ensures |Run(su, events[..j]).lines| < |Run(su, events[..m]).lines| <==> j < m
  {
    LegalPart(su, events, j);
    LegalPart(su, events, m);
    if j < m {
      UpdateHasLine(su, events, j);
      LinesGrow(su, events[..m], j + 1);
      assert events[..m][..j + 1] == events[..j + 1];
    } else {
      LinesGrow(su, events[..j], m);
      assert events[..j][..m] == events[..m];
    }
  }

  lemma UpdateHasLine(su: Setup, events: seq<Event>, j: nat)
    requires Legal(su, events) && j < |events| && events[j].Updated? && Parse(su, events[j].args).Parsed?
    ensures Legal(su, events[..j]) && Legal(su, events[..j + 1])
    ensures |Run(su, events[..j + 1]).lines| == |Run(su, events[..j]).lines| + 1
  {
    LegalPart(su, events, j);
    LegalPart(su, events, j + 1);
    assert events[..j + 1][..j] == events[..j];
  }

  lemma {:induction false} LegalPart(su: Setup, events: seq<Event>, m: nat)
    requires Legal(su, events) && m <= |events|
    ensures Legal(su, events[..m])
    decreases |events|
  {
    if m < |events| {
      var n := |events| - 1;
      LegalPart(su, events[..n], m);
      assert events[..n][..m] == events[..m];
    } else {
      assert events[..m] == events;
    }
  }

  lemma {:induction false} LinesGrow(su: Setup, events: seq<Event>, i: nat)
    requires Legal(su, events) && i <= |events|
    ensures Legal(su, events[..i]) && |Run(su, events[..i]).lines| <= |Run(su, events).lines|
    decreases |events|
  {
    if i < |events| {
      var n := |events| - 1;
      var part := events[..n];
      LinesGrow(su, part, i);
      assert part[..i] == events[..i];
      StepLines(su, Run(su, part), events[n]);
    } else {
      assert events[..i] == events;
    }
  }

  // ----- what a crash doubles

  /** The values of the file that the step brings into the archive. */
  function StoredNow(s: State, e: Event, f: File): seq<Sample> {
    if e.Stored? && e.batch < |s.flying| && s.flying[e.batch].file == f then s.flying[e.batch].values else []
  }

  /** The values of a file stored in the archive, of those accepted since it was last
      forgotten. */
  ghost function StoredOf(su: Setup, events: seq<Event>, f: File): seq<Sample>
    requires Legal(su, events)
    decreases |events|
  {
    if events == [] then []
    else
      var n := |events| - 1;
      if Drops(su, events[n], f) then []
      else StoredOf(su, events[..n], f) + StoredNow(Run(su, events[..n]), events[n], f)
  }

  /** The values of a file that writers hold and the archive has not yet. */
  function Owing(flying: seq<Batch>, file: File): seq<Sample> {
    if flying == [] then []
    else
      var last := flying[|flying| - 1];
      Owing(flying[..|flying| - 1], file) + if last.file == file && !last.stored then last.values else []
  }

  /** What the daemon has of the file and the archive has not. */
  function Unstored(s: State, f: File): seq<Sample> {
    Owing(s.flying, f) + ValuesOf(s.cache, f)
  }

  lemma OneMoreOwing(flying: seq<Batch>, b: Batch, f: File)
    ensures Owing(flying + [b], f) == Owing(flying, f) + if b.file == f && !b.stored then b.values else []
  {
    assert (flying + [b])[..|flying|] == flying;
  }

  lemma {:induction false} OrphanedOwing(flying: seq<Batch>, file: File, f: File)
    ensures Owing(Orphaned(flying, file), f) == if f == file then [] else Owing(flying, f)
  {
    if flying != [] {
      OrphanedOwing(flying[..|flying| - 1], file, f);
      var o := Orphaned(flying, file);
      assert o[..|o| - 1] == Orphaned(flying[..|flying| - 1], file);
    }
  }

  lemma {:induction false} OwingLess(flying: seq<Batch>, f: File)
    requires InFlight(flying, f) == []
    ensures Owing(flying, f) == []
  {
    if flying != [] {
      OwingLess(flying[..|flying| - 1], f);
    }
  }

  lemma {:induction false} CutOwing(flying: seq<Batch>, i: nat, f: File)
    requires i < |flying| && flying[i].stored
    ensures Owing(Cut(flying, i), f) == Owing(flying, f)
  {
    var init, last := flying[..|flying| - 1], flying[|flying| - 1];
    assert flying == init + [last];
    OneMoreOwing(init, last, f);
    if i == |flying| - 1 {
      assert Cut(flying, i) == init;
    } else {
      CutOwing(init, i, f);
      CutLast(flying, i);
      OneMoreOwing(Cut(init, i), last, f);
    }
  }

  lemma MarkedInit(flying: seq<Batch>, i: nat)
    requires i < |flying| - 1
    ensures Marked(flying, i) == Marked(flying[..|flying| - 1], i) + [flying[|flying| - 1]]
  {
  }

  lemma {:induction false} MarkedOwing(flying: seq<Batch>, i: nat, f: File)
    requires i < |flying| && !flying[i].stored
    ensures multiset(Owing(flying, f))
         == multiset(Owing(Marked(flying, i), f)) + multiset(if flying[i].file == f then flying[i].values else [])
  {
    var n := |flying| - 1;
    var init, last := flying[..n], flying[n];
    assert flying == init + [last];
    OneMoreOwing(init, last, f);
    if i == n {
      assert Marked(flying, i) == init + [last.(stored := true)];
      OneMoreOwing(init, last.(stored := true), f);
    } else {
      MarkedOwing(init, i, f);
      MarkedInit(flying, i);
      OneMoreOwing(Marked(init, i), last, f);
      MoreCounts(Owing(init, f), Owing(Marked(init, i), f),
                 if last.file == f && !last.stored then last.values else [],
                 if flying[i].file == f then flying[i].values else []);
    }
  }

  lemma DequeuedUnstored(su: Setup, s: State, e: Event, f: File)
    requires Enabled(su, s, e) && e.Dequeued?
    ensures Unstored(Next(su, s, e), f) == Unstored(s, f)
  {
    var file := s.cache.queue[0];
    OneMoreOwing(s.flying, Batch(file, s.cache.tree[file].values, false), f);
  }

  lemma AcceptedUnstored(su: Setup, s: State, e: Event, f: File)
    requires Enabled(su, s, e) && e.Updated?
    ensures Unstored(Next(su, s, e), f) == Unstored(s, f) + AcceptedNow(su, s, e, f)
  {
    AcceptedStep(su, s, e, f);
    var held := InFlight(s.flying, f);
    var before, after := ValuesOf(s.cache, f), ValuesOf(Next(su, s, e).cache, f);
    assert held + after == held + (before + AcceptedNow(su, s, e, f));
    SameTail(held, after, before + AcceptedNow(su, s, e, f));
  }

  lemma SameTail<T>(a: seq<T>, b: seq<T>, c: seq<T>)
    requires a + b == a + c
    ensures b == c
  {
    assert b == (a + b)[|a|..] && c == (a + c)[|a|..];
  }

  lemma StoredUnstored(su: Setup, s: State, i: nat, f: File)
    requires Enabled(su, s, Stored(i))
    ensures multiset(Unstored(s, f))
         == multiset(Unstored(Next(su, s, Stored(i)), f)) + multiset(StoredNow(s, Stored(i), f))
  {
    MarkedOwing(s.flying, i, f);
  }

  lemma WroteUnstored(su: Setup, s: State, i: nat, f: File)
    requires Enabled(su, s, WroteLine(i))
    ensures Unstored(Next(su, s, WroteLine(i)), f) == Unstored(s, f)
  {
    CutOwing(s.flying, i, f);
  }

  lemma ForgotUnstored(su: Setup, s: State, e: Event, f: File)
    requires Enabled(su, s, e) && e.Forgot? && !Drops(su, e, f)
    ensures Unstored(Next(su, s, e), f) == Unstored(s, f)
  {
    var p, t := Parse(su, e.args), Next(su, s, e);
    if p.Bad? || p.file !in s.cache.tree {
      assert t == s;
    } else {
      OrphanedOwing(s.flying, p.file, f);
      assert t.flying == Orphaned(s.flying, p.file) && t.cache.tree == s.cache.tree - {p.file};
    }
  }

  /** What a step accepts is not in the archive, and what it stores is. */
  lemma StepStores(su: Setup, s: State, e: Event, f: File)
    requires Enabled(su, s, e) && !Drops(su, e, f)
    ensures multiset(Unstored(s, f)) + multiset(AcceptedNow(su, s, e, f))
         == multiset(Unstored(Next(su, s, e), f)) + multiset(StoredNow(s, e, f))
  {
    match e
    case Updated(_, _, _) => AcceptedUnstored(su, s, e, f);
    case Dequeued(_) => DequeuedUnstored(su, s, e, f);
    case Stored(i) => StoredUnstored(su, s, i, f);
    case WroteLine(i) => WroteUnstored(su, s, i, f);
    case Forgot(_) => ForgotUnstored(su, s, e, f);
    case _ =>
  }

  lemma DropUnstored(su: Setup, s: State, e: Event, f: File)
    requires Enabled(su, s, e) && Drops(su, e, f) && NothingOwed(s)
    ensures Unstored(Next(su, s, e), f) == []
  {
    DropHoldsNothing(su, s, e, f);
    OwingLess(Next(su, s, e).flying, f);
  }

  lemma StoresStep(su: Setup, s: State, e: Event, f: File, a: seq<Sample>, w: seq<Sample>)
    requires Enabled(su, s, e) && !Drops(su, e, f) && multiset(a) == multiset(w) + multiset(Unstored(s, f))
    ensures multiset(a + AcceptedNow(su, s, e, f))
         == multiset(w + StoredNow(s, e, f)) + multiset(Unstored(Next(su, s, e), f))
  {
    StepStores(su, s, e, f);
    AddUp(multiset(a), multiset(w), multiset(Unstored(s, f)), multiset(AcceptedNow(su, s, e, f)),
          multiset(Unstored(Next(su, s, e), f)), multiset(StoredNow(s, e, f)));
  }

  /** In every run, the values accepted since a file was last forgotten are those in
      the archive and those that only the daemon has, each as often. */
  lemma {:induction false} RunStores(su: Setup, events: seq<Event>, f: File)
    requires Legal(su, events)
    ensures multiset(AcceptedOf(su, events, f))
         == multiset(StoredOf(su, events, f)) + multiset(Unstored(Run(su, events), f))
    decreases |events|
  {
    if events != [] {
      var n := |events| - 1;
      var s, e := Run(su, events[..n]), events[n];
      if Drops(su, e, f) {
        RunOwesNothing(su, events[..n]);
        DropUnstored(su, s, e, f);
      } else {
        RunStores(su, events[..n], f);
        StoresStep(su, s, e, f, AcceptedOf(su, events[..n], f), StoredOf(su, events[..n], f));
      }
    }
  }

  /** The stamps of what a file accepted rise, up to the newest stamp of its item. */
  ghost predicate Risen(s: State, f: File, accepted: seq<Sample>) {
    && CacheHistory.Rising(accepted)
    && if f in s.cache.tree then s.cache.tree[f].stamp == LastStamp(0.0, accepted) else accepted == []
  }

  lemma UpdateRises(su: Setup, s: State, e: Event, f: File, accepted: seq<Sample>)
    requires Enabled(su, s, e) && e.Updated? && Risen(s, f, accepted)
    ensures Risen(Next(su, s, e), f, accepted + AcceptedNow(su, s, e, f))
  {
    var p := Parse(su, e.args);
    if p.Parsed? && p.file == f {
      var it := if f in s.cache.tree then s.cache.tree[f] else Item([], 0.0, e.flushTime);
      AddToAccepted(it, p.fields);
      AcceptedIsLongestRise(it.stamp, p.fields);
      CacheHistory.RiseContinues(accepted, Accepted(it.stamp, p.fields));
    } else {
      assert accepted + [] == accepted;
    }
  }

  lemma StepRises(su: Setup, s: State, e: Event, f: File, accepted: seq<Sample>)
    requires Enabled(su, s, e) && Risen(s, f, accepted)
    ensures Risen(Next(su, s, e), f, if Drops(su, e, f) then [] else accepted + AcceptedNow(su, s, e, f))
  {
    assert accepted + [] == accepted;
    if e.Updated? {
      UpdateRises(su, s, e, f, accepted);
    }
  }

  lemma {:induction false} AcceptedRises(su: Setup, events: seq<Event>, f: File)
    requires Legal(su, events)
    ensures Risen(Run(su, events), f, AcceptedOf(su, events, f))
    decreases |events|
  {
    if events != [] {
      var n := |events| - 1;
      AcceptedRises(su, events[..n], f);
      StepRises(su, Run(su, events[..n]), events[n], f, AcceptedOf(su, events[..n], f));
    }
  }

  lemma {:induction false} RisingOnce(a: seq<Sample>, x: Sample)
    requires Increasing(a)
    ensures multiset(a)[x] <= 1
  {
    if a != [] {
      var init, last := a[..|a| - 1], a[|a| - 1];
      RisingOnce(init, x);
      assert a == init + [last];
      assert last !in init;
      assert multiset(a)[x] == multiset(init)[x] + multiset([last])[x];
    }
  }

  lemma {:induction false} AcceptedStays(su: Setup, events: seq<Event>, m: nat, f: File, x: Sample)
    requires Legal(su, events) && m <= |events| && Legal(su, events[..m]) && x in AcceptedOf(su, events[..m], f)
    requires forall j :: m <= j < |events| ==> !Drops(su, events[j], f)
    ensures x in AcceptedOf(su, events, f)
    decreases |events|
  {
    if m < |events| {
      var part := events[..|events| - 1];
      assert part[..m] == events[..m];
      AcceptedStays(su, part, m, f, x);
    } else {
      assert events[..m] == events;
    }
  }

  /** In every run, a value accepted since the file was last forgotten is in the
      archive exactly if the daemon does not owe it any more. */
  lemma StoredOrOwed(su: Setup, events: seq<Event>, f: File, x: Sample)
    requires Legal(su, events) && x in AcceptedOf(su, events, f)
    ensures x in StoredOf(su, events, f) <==> x !in Unstored(Run(su, events), f)
  {
    AcceptedRises(su, events, f);
    RunStores(su, events, f);
    var a, b := multiset(StoredOf(su, events, f)), multiset(Unstored(Run(su, events), f));
    RisingOnce(AcceptedOf(su, events, f), x);
    assert multiset(AcceptedOf(su, events, f))[x] == a[x] + b[x];
  }

  lemma RebuiltWasAccepted(su: Setup, events: seq<Event>, c: Cache, f: File, x: Sample)
    requires Legal(su, events) && Agrees(Run(su, events), c) && f !in Run(su, events).forgetting
    requires x in ValuesOf(c, f)
    ensures x in AcceptedOf(su, events, f)
  {
    RunOwesNothing(su, events);
    RebuiltIsHeld(Run(su, events), c, f);
    RunCounts(su, events, f);
    var held := Held(Run(su, events), f);
    assert x in multiset(held);
    assert x in multiset(AcceptedOf(su, events, f));
  }

  /** A value that replay rebuilds after a crash is in the archive as well, so that
      it is written twice, exactly if the daemon did not owe it to the archive any
      more when it crashed. This is said of files that no step behind the surviving
      lines forgot. */
  lemma WrittenTwice(su: Setup, events: seq<Event>, k: nat, now: int, flush: nat -> int) returns (m: nat)
    requires Rooted(su) && Legal(su, events) && AllInTime(su, events)
    requires k <= |Text(Run(su, events).lines)|
    ensures m <= |events| && Legal(su, events[..m])
    ensures Run(su, events[..m]).lines == Entries(Text(Run(su, events).lines)[..k])
    ensures forall f, x ::
              && f !in Run(su, events[..m]).forgetting
              && x in ValuesOf(Replay(su, Entries(Text(Run(su, events).lines)[..k]), now, flush), f)
              && (forall j :: m <= j < |events| ==> !Drops(su, events[j], f))
              ==> (x in StoredOf(su, events, f) <==> x !in Unstored(Run(su, events), f))
  {
    m := CrashRecovers(su, events, k, now, flush);
    var c := Replay(su, Entries(Text(Run(su, events).lines)[..k]), now, flush);
    forall f, x | f !in Run(su, events[..m]).forgetting && x in ValuesOf(c, f)
                  && forall j :: m <= j < |events| ==> !Drops(su, events[j], f)
      ensures x in StoredOf(su, events, f) <==> x !in Unstored(Run(su, events), f)
    {
      RebuiltWasAccepted(su, events[..m], c, f, x);
      AcceptedStays(su, events, m, f, x);
      StoredOrOwed(su, events, f, x);
    }
  }

  // ----- instances

  /** After a FORGET of "/a b", the replay of its line forgets "/a". */
  lemma OtherFileForgotten(su: Setup, c: Cache, now: int, flushTime: int)
    ensures Handle(su, c, "forget " + "/a b", now, flushTime) == Forget(c, File("/a"))
  {
    HandleForget(su, c, "/a b", now, flushTime);
    assert "/a" + " " + "b" + [NUL] == "/a b" + [NUL];
    ScanWord("/a", "b");
  }

  predicate Simple(s: string) {
    NUL !in s && ' ' !in s && '\\' !in s
  }

  lemma OneField(text: string)
    requires Simple(text)
    ensures Wire.Fields(text + [NUL]) == [text]
  {
    EscapeNothing(text);
    Wire.FieldsOfEncoded([], text);
    assert Wire.Encode([]) + text == text && [] + [text] == [text];
  }

  /** An UPDATE with one value. */
  lemma ParseOne(su: Setup, path: string, text: string)
    requires Simple(path) && Simple(text) && path != "" && path[0] == '/'
    ensures Parse(su, path + " " + text) == Parsed(File(path), ToFields(su, [text]))
  {
    var line := path + " " + text + [NUL];
    ScanWord(path, text);
    assert line[|path| + 1..] == text + [NUL];
    OneField(text);
  }

  lemma RunOneMore(su: Setup, events: seq<Event>, e: Event)
    requires Legal(su, events) && Enabled(su, Run(su, events), e)
    ensures Legal(su, events + [e]) && Run(su, events + [e]) == Next(su, Run(su, events), e)
  {
    assert (events + [e])[..|events|] == events;
  }

  lemma UpdateOne(su: Setup, c: Cache, args: string, f: File, v: Sample, now: int, flushTime: int)
    requires Parse(su, args) == Parsed(f, [Stamped(v)])
    requires (if f in c.tree then c.tree[f].stamp else 0.0) < v.stamp
    ensures var c' := DoUpdate(su, c, args, now, flushTime);
            && f in c'.tree && c'.tree[f].stamp == v.stamp && c'.tree[f].values == ValuesOf(c, f) + [v]
            && (WellFormed(c) ==> WellFormed(c'))
  {
    var it := if f in c.tree then c.tree[f] else Item([], 0.0, flushTime);
    AddToAccepted(it, [Stamped(v)]);
    assert Accepted(it.stamp, [Stamped(v)]) == [v];
  }

  /** What the daemon has of a file in the course of this. */
  ghost predicate Course(s: State, f: File, stamp: real, pending: seq<Sample>, flying: seq<Batch>, lines: seq<string>) {
    && WellFormed(s.cache) && s.flying == flying && s.forgetting == [] && s.lines == lines
    && f in s.cache.tree && s.cache.tree[f].values == pending && s.cache.tree[f].stamp == stamp
  }

  lemma CourseUpdated(su: Setup, s: State, args: string, f: File, v: Sample, stamp: real, pending: seq<Sample>,
                      flying: seq<Batch>, lines: seq<string>)
    requires Parse(su, args) == Parsed(f, [Stamped(v)]) && stamp < v.stamp && Writable("update " + args)
    requires (s == Start() && stamp == 0.0 && pending == [] && flying == [] && lines == [])
             || Course(s, f, stamp, pending, flying, lines)
    ensures Enabled(su, s, Updated(args, 0, 0))
    ensures Course(Next(su, s, Updated(args, 0, 0)), f, v.stamp, pending + [v], flying, lines + ["update " + args])
  {
    UpdateOne(su, s.cache, args, f, v, 0, 0);
  }

  /** A FLUSH, and a writer that takes the file up. */
  lemma CourseTaken(su: Setup, s: State, f: File, stamp: real, v: Sample, lines: seq<string>)
    requires Course(s, f, stamp, [v], [], lines) && Writable("wrote " + f.path)
    ensures Enabled(su, s, Requeued([f])) && Enabled(su, Next(su, s, Requeued([f])), Dequeued(0))
    ensures Course(Next(su, Next(su, s, Requeued([f])), Dequeued(0)), f, stamp, [], [Batch(f, [v], false)], lines)
  {
    var t := Next(su, s, Requeued([f]));
    assert t.cache.queue[0] == f;
    assert WellFormed(Take(t.cache, 0));
  }

  /** rrd_update_r returns. */
  lemma CourseStored(su: Setup, s: State, f: File, stamp: real, pending: seq<Sample>, v: Sample, lines: seq<string>)
    requires Course(s, f, stamp, pending, [Batch(f, [v], false)], lines)
    ensures Enabled(su, s, Stored(0))
    ensures Course(Next(su, s, Stored(0)), f, stamp, pending, [Batch(f, [v], true)], lines)
  {
  }

  /** The file after an UPDATE, a FLUSH that a writer takes up, and another UPDATE. */
  lemma Overtaken(su: Setup, f: File, args: string, args': string, v: Sample, v': Sample) returns (events: seq<Event>)
    requires Parse(su, args) == Parsed(f, [Stamped(v)]) && Parse(su, args') == Parsed(f, [Stamped(v')])
    requires 0.0 < v.stamp < v'.stamp && Writable("wrote " + f.path)
    requires Writable("update " + args) && Writable("update " + args')
    ensures Legal(su, events)
    ensures Course(Run(su, events), f, v'.stamp, [] + [v'], [Batch(f, [v], false)],
                   [] + ["update " + args] + ["update " + args'])
  {
    var lines := [] + ["update " + args];
    CourseUpdated(su, Start(), args, f, v, 0.0, [], [], []);
    RunOneMore(su, [], Updated(args, 0, 0));
    events := [] + [Updated(args, 0, 0)];
    assert [] + [v] == [v];
    CourseTaken(su, Run(su, events), f, v.stamp, v, lines);
    RunOneMore(su, events, Requeued([f]));
    events := events + [Requeued([f])];
    RunOneMore(su, events, Dequeued(0));
    events := events + [Dequeued(0)];
    CourseUpdated(su, Run(su, events), args', f, v', v.stamp, [], [Batch(f, [v], false)], lines);
    RunOneMore(su, events, Updated(args', 0, 0));
    events := events + [Updated(args', 0, 0)];
  }

  /** Then the `wrote` line of the first value comes behind the `update` line of the
      second, and replay loses the second value. */
  lemma LateLineLoses(su: Setup, f: File, args: string, args': string, v: Sample, v': Sample, now: int,
                      flush: nat -> int)
    returns (events: seq<Event>)
    requires Parse(su, args) == Parsed(f, [Stamped(v)]) && Parse(su, args') == Parsed(f, [Stamped(v')])
    requires 0.0 < v.stamp < v'.stamp && Writable("wrote " + f.path)
    requires Writable("update " + args) && Writable("update " + args')
    ensures Legal(su, events) && AtRest(Run(su, events)) && ValuesOf(Run(su, events).cache, f) == [v']
    ensures ValuesOf(Replay(su, Run(su, events).lines, now, flush), f) == []
  {
    var before := Overtaken(su, f, args, args', v, v');
    var s := Run(su, before);
    RunOneMore(su, before, Stored(0));
    CourseStored(su, s, f, v'.stamp, [] + [v'], v, s.lines);
    s := Run(su, before + [Stored(0)]);
    events := before + [Stored(0)] + [WroteLine(0)];
    RunOneMore(su, before + [Stored(0)], WroteLine(0));
    WrittenLate(su, s, f, v'.stamp, v, v', s.lines);
    ReplayedLate(su, f, s.lines, now, flush);
  }

  lemma WrittenLate(su: Setup, s: State, f: File, stamp: real, v: Sample, v': Sample, lines: seq<string>)
    requires Course(s, f, stamp, [v'], [Batch(f, [v], true)], lines) && Writable("wrote " + f.path)
    ensures Enabled(su, s, WroteLine(0)) && Next(su, s, WroteLine(0)).lines == lines + ["wrote " + f.path]
    ensures AtRest(Next(su, s, WroteLine(0))) && ValuesOf(Next(su, s, WroteLine(0)).cache, f) == [v']
  {
  }

  lemma ReplayedLate(su: Setup, f: File, lines: seq<string>, now: int, flush: nat -> int)
    ensures ValuesOf(Replay(su, lines + ["wrote " + f.path], now, flush), f) == []
  {
    ReplayOneMore(su, lines, "wrote " + f.path, now, flush);
    HandleWrote(su, Replay(su, lines, now, flush), f.path, now, flush(|lines|));
  }

  lemma FieldOf(su: Setup, text: string, stamp: real)
    requires su.strtod(text) == At(stamp)
    ensures ToFields(su, [text]) == [Stamped(Sample(text, stamp))]
  {
    assert [text][1..] == [];
  }

  lemma Short(word: string, path: string, text: string)
    requires |word| + |path| + |text| <= 100
    requires forall s, i :: s in [word, path, text] && 0 <= i < |s| ==> s[i] != NUL && s[i] != '\n'
    ensures Writable(word + path) && Writable(word + (path + " " + text))
  {
    assert word in [word, path, text] && path in [word, path, text] && text in [word, path, text];
  }

  /** So it does with two values of one file. */
  lemma LateLineOf(su: Setup, path: string, text: string, text': string, stamp: real, stamp': real, now: int,
                   flush: nat -> int)
    returns (events: seq<Event>)
    requires Simple(path) && Simple(text) && Simple(text') && path != "" && path[0] == '/'
    requires |path| + |text| <= 50 && |path| + |text'| <= 50
    requires '\n' !in path && '\n' !in text && '\n' !in text'
    requires su.strtod(text) == At(stamp) && su.strtod(text') == At(stamp') && 0.0 < stamp < stamp'
    ensures Legal(su, events) && AtRest(Run(su, events))
    ensures ValuesOf(Run(su, events).cache, File(path)) == [Sample(text', stamp')]
    ensures ValuesOf(Replay(su, Run(su, events).lines, now, flush), File(path)) == []
  {
    ParseOne(su, path, text);
    ParseOne(su, path, text');
    FieldOf(su, text, stamp);
    FieldOf(su, text', stamp');
    Short("update ", path, text);
    Short("update ", path, text');
    Short("wrote ", path, text);
    events := LateLineLoses(su, File(path), path + " " + text, path + " " + text',
                            Sample(text, stamp), Sample(text', stamp'), now, flush);
  }

  /** For example for "/a" with the values 5 and 6 at the times 1 and 2. */
  lemma LateLineExample(su: Setup, now: int, flush: nat -> int) returns (events: seq<Event>)
    requires su.strtod("1:5") == At(1.0) && su.strtod("2:6") == At(2.0)
    ensures Legal(su, events) && AtRest(Run(su, events))
    ensures ValuesOf(Run(su, events).cache, File("/a")) == [Sample("2:6", 2.0)]
    ensures ValuesOf(Replay(su, Run(su, events).lines, now, flush), File("/a")) == []
  {
    events := LateLineOf(su, "/a", "1:5", "2:6", 1.0, 2.0, now, flush);
  }

  lemma TimelyOneMore(su: Setup, events: seq<Event>, e: Event, f: File)
    requires Legal(su, events) && AllInTime(su, events) && Enabled(su, Run(su, events), e)
    requires InTime(Run(su, events), e) && !Drops(su, e, f)
    ensures Legal(su, events + [e]) && AllInTime(su, events + [e])
    ensures Run(su, events + [e]) == Next(su, Run(su, events), e)
    ensures StoredOf(su, events + [e], f) == StoredOf(su, events, f) + StoredNow(Run(su, events), e, f)
  {
    assert (events + [e])[..|events|] == events;
  }

  /** An UPDATE whose value a writer stores. */
  lemma StoredCourse(su: Setup, f: File, args: string, v: Sample) returns (events: seq<Event>)
    requires Parse(su, args) == Parsed(f, [Stamped(v)]) && 0.0 < v.stamp
    requires Writable("wrote " + f.path) && Writable("update " + args)
    ensures Legal(su, events) && AllInTime(su, events)
    ensures Course(Run(su, events), f, v.stamp, [], [Batch(f, [v], true)], [] + ["update " + args])
    ensures StoredOf(su, events, f) == [] + [v]
  {
    var lines := [] + ["update " + args];
    events := [];
    CourseUpdated(su, Start(), args, f, v, 0.0, [], [], []);
    TimelyOneMore(su, events, Updated(args, 0, 0), f);
    events := events + [Updated(args, 0, 0)];
    assert [] + [v] == [v];
    CourseTaken(su, Run(su, events), f, v.stamp, v, lines);
    TimelyOneMore(su, events, Requeued([f]), f);
    events := events + [Requeued([f])];
    TimelyOneMore(su, events, Dequeued(0), f);
    events := events + [Dequeued(0)];
    CourseStored(su, Run(su, events), f, v.stamp, [], v, lines);
    TimelyOneMore(su, events, Stored(0), f);
    events := events + [Stored(0)];
  }

  lemma CourseRecorded(su: Setup, s: State, f: File, stamp: real, v: Sample, lines: seq<string>)
    requires Course(s, f, stamp, [], [Batch(f, [v], true)], lines) && Writable("wrote " + f.path)
    ensures Enabled(su, s, WroteLine(0)) && InTime(s, WroteLine(0))
    ensures Next(su, s, WroteLine(0)).lines == lines + ["wrote " + f.path]
  {
    assert Cut(s.flying, 0) == [];
  }

  /** If a crash cuts the journal behind its `update` line, replay rebuilds a value
      that is in the archive already. */
  lemma StoredAndRebuilt(su: Setup, f: File, args: string, v: Sample, now: int, flush: nat -> int)
    returns (events: seq<Event>, k: nat)
    requires Parse(su, args) == Parsed(f, [Stamped(v)]) && 0.0 < v.stamp
    requires Writable("wrote " + f.path) && Writable("update " + args)
    ensures Legal(su, events) && AllInTime(su, events) && k <= |Text(Run(su, events).lines)|
    ensures StoredOf(su, events, f) == [v]
    ensures ValuesOf(Replay(su, Entries(Text(Run(su, events).lines)[..k]), now, flush), f) == [v]
  {
    var before := StoredCourse(su, f, args, v);
    var line, other := "update " + args, "wrote " + f.path;
    CourseRecorded(su, Run(su, before), f, v.stamp, v, [] + [line]);
    TimelyOneMore(su, before, WroteLine(0), f);
    events := before + [WroteLine(0)];
    k := |line| + 1;
    FirstOfTwo(line, other);
    UpdateOne(su, Cache(map[], []), args, f, v, now, flush(0));
    ReplayOneMore(su, [], line, now, flush);
    HandleUpdate(su, Cache(map[], []), args, now, flush(0));
    assert [] + [line] == [line];
  }

  lemma FirstOfTwo(line: string, other: string)
    requires Writable(line)
    ensures |line| + 1 <= |Text([] + [line] + [other])|
    ensures Entries(Text([] + [line] + [other])[..|line| + 1]) == [line]
  {
    var lines := [] + [line] + [other];
    TextFirst(lines);
    var text := Text(lines[1..]);
    CutBehind(line, text, |line| + 1);
    EntryFirst(line, "");
    assert text[..0] == "";
  }

  /** For example the value 5 of "/a" at the time 1. */
  lemma StoredAndRebuiltExample(su: Setup, now: int, flush: nat -> int) returns (events: seq<Event>, k: nat)
    requires su.strtod("1:5") == At(1.0)
    ensures Legal(su, events) && AllInTime(su, events) && k <= |Text(Run(su, events).lines)|
    ensures StoredOf(su, events, File("/a")) == [Sample("1:5", 1.0)]
    ensures ValuesOf(Replay(su, Entries(Text(Run(su, events).lines)[..k]), now, flush), File("/a"))
         == [Sample("1:5", 1.0)]
  {
    ParseOne(su, "/a", "1:5");
    FieldOf(su, "1:5", 1.0);
    Short("update ", "/a", "1:5");
    Short("wrote ", "/a", "1:5");
    events, k := StoredAndRebuilt(su, File("/a"), "/a" + " " + "1:5", Sample("1:5", 1.0), now, flush);
  }
}
