/**
 Transactions and their nesting: what each handle sends over its life, and the proof that
 savepoints reused and left behind on the server still behave as a plain stack of snapshots.
 */
module Transactions {
  import opened Wrappers
  import opened Sequences
  import opened Sessions
  import opened Decimals

  // ---- One handle ----

  /** A nested transaction's savepoint; the outermost transaction has none. */
  datatype Level = Level(name: string, depth: nat)

  function AutomaticName(depth: nat): string {
    "sp_" + Decimal(depth)
  }

  /** What `commit`, and what `rollback` or `Drop`, sends. */
  function Closing(savepoint: Option<Level>, commit: bool): Control {
    match savepoint
    case None => if commit then Commit else Rollback
    case Some(sp) => if commit then Release(sp.name) else RollbackTo(sp.name)
  }

  function NextLevel(savepoint: Option<Level>, name: Option<string>): Level {
    var depth := 1 + match savepoint case None => 0 case Some(sp) => sp.depth;
    Level(match name case None => AutomaticName(depth) case Some(n) => n, depth)
  }

  /** The request channel of a client, as far as transactions use it. */
  class Client {
    var sent: seq<Control>
    const open: bool

    constructor (open: bool)
      ensures sent == [] && this.open == open
    {
      sent := [];
      this.open := open;
    }

    /**
     The synchronous part of `batch_execute`, and all of the rollback in `Drop`: one request,
     if the channel takes it.
     */
    method Send(c: Control)
      modifies this
      ensures sent == old(sent) + if open then [c] else []
    {
      if open {
        sent := sent + [c];
      }
    }
  }

  /** The events of a handle's life; `Call` turns it into the future of `commit` or `rollback`. */
  datatype Event = Call(commit: bool) | Poll | Dropped

  datatype Phase = Held | Future(commit: bool) | Gone

  datatype Handle = Handle(savepoint: Option<Level>, phase: Phase, done: bool)

  /** A handle is called at most once, its future may be polled any number of times, and it is dropped once. */
  predicate Possible(h: Handle, e: Event) {
    match e
    case Call(_) => h.phase.Held?
    case Poll => h.phase.Future?
    case Dropped => !h.phase.Gone?
  }

  function Sends(h: Handle, e: Event): seq<Control>
    requires Possible(h, e)
  {
    match e
    case Call(_) => []
    case Poll => if h.done then [] else [Closing(h.savepoint, h.phase.commit)]
    case Dropped => if h.done then [] else [Closing(h.savepoint, false)]
  }

  function Next(h: Handle, e: Event): Handle
    requires Possible(h, e)
  {
    match e
    case Call(commit) => h.(phase := Future(commit))
    case Poll => h.(done := true)
    case Dropped => h.(phase := Gone)
  }

  predicate Life(h: Handle, events: seq<Event>)
    decreases |events|
  {
    events == [] || (Possible(h, events[0]) && Life(Next(h, events[0]), events[1..]))
  }

  function End(h: Handle, events: seq<Event>): Handle
    requires Life(h, events)
    decreases |events|
  {
    if events == [] then h else End(Next(h, events[0]), events[1..])
  }

  function Log(h: Handle, events: seq<Event>): seq<Control>
    requires Life(h, events)
    decreases |events|
  {
    if events == [] then [] else Sends(h, events[0]) + Log(Next(h, events[0]), events[1..])
  }

  lemma {:induction false} LifeFrom(h: Handle, events: seq<Event>)
    requires Life(h, events) && !h.phase.Gone? && (h.done ==> h.phase.Future?)
    ensures h.done ==> Log(h, events) == []
    ensures !h.done && End(h, events).phase.Gone? ==>
      Log(h, events) == [Closing(h.savepoint, (h.phase == Future(true) || Call(true) in events) && Poll in events)]
    decreases |events|
  {
    if events != [] {
      var h' := Next(h, events[0]);
      assert events == [events[0]] + events[1..];
      if h'.phase.Gone? {
        assert events[1..] == [];
      } else {
        LifeFrom(h', events[1..]);
        if h.phase.Future? {
          NoSecondCall(h', events[1..]);
        }
      }
    }
  }

  lemma {:induction false} NoSecondCall(h: Handle, events: seq<Event>)
    requires Life(h, events) && !h.phase.Held?
    ensures forall commit :: Call(commit) !in events
    decreases |events|
  {
    if events != [] {
      NoSecondCall(Next(h, events[0]), events[1..]);
      assert events == [events[0]] + events[1..];
    }
  }

  /**
   Over any whole life a handle sends exactly one closing request: the commit if a commit
   future was polled at all, and the rollback otherwise.
   */
  lemma ExactlyOneClose(savepoint: Option<Level>, events: seq<Event>)
    requires Life(Handle(savepoint, Held, false), events)
    requires End(Handle(savepoint, Held, false), events).phase.Gone?
    ensures Log(Handle(savepoint, Held, false), events)
         == [Closing(savepoint, Call(true) in events && Poll in events)]
  {
    LifeFrom(Handle(savepoint, Held, false), events);
  }

  class Transaction {
    const client: Client
    const savepoint: Option<Level>
    var done: bool

    constructor (client: Client, savepoint: Option<Level>)
      ensures this.client == client && this.savepoint == savepoint && !done
    {
      this.client := client;
      this.savepoint := savepoint;
      done := false;
    }

    function Seen(phase: Phase): Handle
      reads this
    {
      Handle(savepoint, phase, done)
    }

    /** The first poll of the future of `commit` or `rollback`; later polls only wait for the answer. */
    method PollClose(commit: bool)
      requires !done
      modifies this, client
      ensures client.sent == old(client.sent) + if client.open then Sends(old(Seen(Future(commit))), Poll) else []
      ensures Seen(Future(commit)) == Next(old(Seen(Future(commit))), Poll)
    {
      done := true;
      client.Send(Closing(savepoint, commit));
    }

    /** `Drop`, of the handle itself or inside a dropped future. */
    method Drop(ghost phase: Phase)
      requires !phase.Gone?
      modifies client
      ensures client.sent == old(client.sent) + if client.open then Sends(Seen(phase), Dropped) else []
    {
      if done {
        return;
      }
      client.Send(Closing(savepoint, false));
    }

    /** `_savepoint`, polled at least once; `answer` is `None` when the future is dropped before the server answers. */
    method Nest(name: Option<string>, answer: Option<bool>) returns (t: Option<Transaction>)
      modifies client
      ensures client.sent == old(client.sent) + if client.open then [Savepoint(NextLevel(savepoint, name).name)] else []
      ensures t.Some? <==> answer == Some(true)
      ensures t.Some? ==> fresh(t.value) && t.value.client == client && !t.value.done
      ensures t.Some? ==> t.value.savepoint == Some(NextLevel(savepoint, name))
    {
      var level := NextLevel(savepoint, name);
      client.Send(Savepoint(level.name));
      if answer != Some(true) {
        return None;
      }
      var inner := new Transaction(client, Some(level));
      return Some(inner);
    }
  }

  // ---- Starting ----

  datatype IsolationLevel = ReadUncommitted | ReadCommitted | RepeatableRead | Serializable

  datatype Options = Options(isolation: Option<IsolationLevel>, readOnly: Option<bool>, deferrable: Option<bool>)

  function IsolationText(level: IsolationLevel): string {
    match level
    case ReadUncommitted => "READ UNCOMMITTED"
    case ReadCommitted => "READ COMMITTED"
    case RepeatableRead => "REPEATABLE READ"
    case Serializable => "SERIALIZABLE"
  }

  function AccessText(readOnly: bool): string {
    if readOnly then " READ ONLY" else " READ WRITE"
  }

  function DeferrableText(deferrable: bool): string {
    if deferrable then " DEFERRABLE" else " NOT DEFERRABLE"
  }

  function IsolationModes(o: Options): seq<string> {
    match o.isolation case None => [] case Some(l) => [" ISOLATION LEVEL " + IsolationText(l)]
  }

  function Modes(o: Options): seq<string> {
    IsolationModes(o) +
    (match o.readOnly case None => [] case Some(b) => [AccessText(b)]) +
    (match o.deferrable case None => [] case Some(b) => [DeferrableText(b)])
  }

  function CommaJoined(items: seq<string>): string {
    if items == [] then [] else if |items| == 1 then items[0]
    else CommaJoined(items[..|items| - 1]) + "," + items[|items| - 1]
  }

  const START_TEXT: string := "START TRANSACTION"

  /** The text of the starting statement: the chosen modes, separated by commas. */
  method StartQuery(o: Options) returns (query: string)
    ensures query == START_TEXT + CommaJoined(Modes(o)) && ReadStart(query) == Some(o)
  {
    hide START_TEXT, ReadStart, CommaJoined, IsolationText, AccessText, DeferrableText;
    query := START_TEXT;
    var first := true;
    ghost var modes: seq<string> := [];
    NoModes();
    if o.isolation.Some? {
      first := false;
      ModeAdded(query, modes, " ISOLATION LEVEL " + IsolationText(o.isolation.value));
      query := query + " ISOLATION LEVEL ";
      query := query + IsolationText(o.isolation.value);
      modes := modes + [" ISOLATION LEVEL " + IsolationText(o.isolation.value)];
      Assoc(START_TEXT, " ISOLATION LEVEL ", IsolationText(o.isolation.value));
    }
    assert modes == IsolationModes(o);
    if o.readOnly.Some? {
      ModeAdded(query, modes, AccessText(o.readOnly.value));
      if !first {
        query := query + ",";
      }
      first := false;
      query := query + AccessText(o.readOnly.value);
      modes := modes + [AccessText(o.readOnly.value)];
    }
    if o.deferrable.Some? {
      ModeAdded(query, modes, DeferrableText(o.deferrable.value));
      if !first {
        query := query + ",";
      }
      query := query + DeferrableText(o.deferrable.value);
      modes := modes + [DeferrableText(o.deferrable.value)];
    }
    assert modes == Modes(o);
    StartIsUnderstood(o);
  }

  lemma NoModes()
    ensures START_TEXT == START_TEXT + CommaJoined([])
  {}

  // One mode more, behind a comma unless it is the first.
  lemma ModeAdded(query: string, modes: seq<string>, mode: string)
    requires query == START_TEXT + CommaJoined(modes)
    ensures (if modes == [] then query + mode else query + "," + mode) == START_TEXT + CommaJoined(modes + [mode])
  {
    hide START_TEXT, CommaJoined;
    CommaJoinedSnoc(modes, mode);
    if modes == [] {
      CommaJoinedNone();
      assert query == START_TEXT;
    } else {
      assert query + "," + mode == START_TEXT + (CommaJoined(modes) + "," + mode);
    }
  }

  lemma CommaJoinedNone()
    ensures CommaJoined([]) == []
  {}

  lemma CommaJoinedSnoc(items: seq<string>, item: string)
    ensures CommaJoined(items + [item]) == if items == [] then item else CommaJoined(items) + "," + item
  {
    assert (items + [item])[..|items|] == items;
  }

  // Splits at commas, as the server's grammar separates transaction modes.
  function Split(text: string): (r: seq<string>)
    ensures r != []
  {
    if text == [] then [[]]
    else
      var before := Split(text[..|text| - 1]);
      var last := text[|text| - 1];
      if last == ',' then before + [[]] else before[..|before| - 1] + [before[|before| - 1] + [last]]
  }

  lemma {:induction false} SplitPlain(text: string)
    requires ',' !in text
    ensures Split(text) == [text]
  {
    if text != [] {
      SplitPlain(text[..|text| - 1]);
      assert text == text[..|text| - 1] + [text[|text| - 1]];
    }
  }

  lemma SplitSnoc(text: string, c: char)
    ensures var before := Split(text);
      Split(text + [c]) == if c == ',' then before + [[]] else before[..|before| - 1] + [before[|before| - 1] + [c]]
  {
    assert (text + [c])[..|text|] == text;
  }

  lemma {:induction false} SplitAfterComma(front: string, text: string)
    requires ',' !in text
    ensures Split(front + "," + text) == Split(front) + [text]
    decreases |text|
  {
    hide Split;
    if text == [] {
      SplitSnoc(front, ',');
      assert front + "," + text == front + [','];
    } else {
      var most, last := text[..|text| - 1], text[|text| - 1];
      SplitAfterComma(front, most);
      SplitSnoc(front + "," + most, last);
      assert front + "," + text == (front + "," + most) + [last];
      assert most + [last] == text;
      assert (Split(front) + [most])[..|Split(front)|] == Split(front);
    }
  }

  lemma {:induction false} SplitJoined(items: seq<string>)
    requires items != [] && forall i :: 0 <= i < |items| ==> ',' !in items[i]
    ensures Split(CommaJoined(items)) == items
  {
    if |items| == 1 {
      SplitPlain(items[0]);
    } else {
      var most, last := items[..|items| - 1], items[|items| - 1];
      SplitJoined(most);
      SplitAfterComma(CommaJoined(most), last);
      assert most + [last] == items;
    }
  }

  lemma TextsPlain(level: IsolationLevel, b: bool)
    ensures ',' !in " ISOLATION LEVEL " + IsolationText(level)
    ensures ',' !in AccessText(b) && AccessText(b) != []
    ensures ',' !in DeferrableText(b) && DeferrableText(b) != []
  {
    assert ',' !in IsolationText(level);
  }

  lemma ModesPlain(o: Options)
    ensures forall i :: 0 <= i < |Modes(o)| ==> ',' !in Modes(o)[i] && Modes(o)[i] != []
  {
    hide IsolationText, AccessText, DeferrableText;
    TextsPlain(if o.isolation.Some? then o.isolation.value else Serializable, true);
    TextsPlain(Serializable, false);
  }

  // ---- The server's reading of the statement ----

  function WordLength(text: string): (n: nat)
    ensures n <= |text| && (text != [] && text[0] != ' ' ==> n > 0)
  {
    if text == [] || text[0] == ' ' then 0 else 1 + WordLength(text[1..])
  }

  /** The words of a text, separated by any number of spaces. */
  function Words(text: string): seq<string>
    decreases |text|
  {
    if text == [] then []
    else if text[0] == ' ' then Words(text[1..])
    else [text[..WordLength(text)]] + Words(text[WordLength(text)..])
  }

  /** One transaction mode of the grammar, applied to what was read before it. */
  function ReadMode(words: seq<string>, o: Options): Option<Options> {
    if words == ["ISOLATION", "LEVEL", "READ", "UNCOMMITTED"] then Some(o.(isolation := Some(ReadUncommitted)))
    else if words == ["ISOLATION", "LEVEL", "READ", "COMMITTED"] then Some(o.(isolation := Some(ReadCommitted)))
    else if words == ["ISOLATION", "LEVEL", "REPEATABLE", "READ"] then Some(o.(isolation := Some(RepeatableRead)))
    else if words == ["ISOLATION", "LEVEL", "SERIALIZABLE"] then Some(o.(isolation := Some(Serializable)))
    else if words == ["READ", "ONLY"] then Some(o.(readOnly := Some(true)))
    else if words == ["READ", "WRITE"] then Some(o.(readOnly := Some(false)))
    else if words == ["DEFERRABLE"] then Some(o.(deferrable := Some(true)))
    else if words == ["NOT", "DEFERRABLE"] then Some(o.(deferrable := Some(false)))
    else None
  }

  function ReadModes(items: seq<string>): Option<Options> {
    if items == [] then Some(Options(None, None, None))
    else match ReadModes(items[..|items| - 1])
      case None => None
      case Some(o) => ReadMode(Words(items[|items| - 1]), o)
  }

  /** The statement's keywords, then its modes, if any, between commas. */
  function ReadStart(text: string): Option<Options> {
    if |text| < 17 || text[..17] != "START TRANSACTION" then None
    else if text[17..] == [] then ReadModes([])
    else ReadModes(Split(text[17..]))
  }

  lemma {:induction false} WordLengthIs(w: string, rest: string)
    requires ' ' !in w && (rest == [] || rest[0] == ' ')
    ensures WordLength(w + rest) == |w|
    decreases |w|
  {
    if w == [] {
      assert w + rest == rest;
    } else {
      assert (w + rest)[1..] == w[1..] + rest;
      WordLengthIs(w[1..], rest);
    }
  }

  lemma OneWord(w: string, rest: string)
    requires w != [] && ' ' !in w && (rest == [] || rest[0] == ' ')
    ensures Words([' '] + w + rest) == [w] + Words(rest)
  {
    var text := w + rest;
    assert ([' '] + w + rest)[1..] == text;
    WordLengthIs(w, rest);
    assert text[0] == w[0] && text[..|w|] == w && text[|w|..] == rest;
  }

  lemma TwoWords(a: string, b: string)
    requires a != [] && b != [] && ' ' !in a && ' ' !in b
    ensures Words([' '] + a) == [a] && Words([' '] + a + ([' '] + b)) == [a, b]
  {
    hide Words;
    NoWords();
    OneWord(a, []);
    OneWord(b, []);
    assert [' '] + a + [] == [' '] + a && [' '] + b + [] == [' '] + b;
    OneWord(a, [' '] + b);
    assert [b] + [] == [b] && [a] + [] == [a] && [a] + [b] == [a, b];
  }

  lemma NoWords()
    ensures Words([]) == []
  {}

  lemma AccessWords(readOnly: bool)
    ensures Words(AccessText(readOnly)) == if readOnly then ["READ", "ONLY"] else ["READ", "WRITE"]
  {
    hide Words;
    TwoWords("READ", "ONLY");
    TwoWords("READ", "WRITE");
    assert " READ ONLY" == [' '] + "READ" + ([' '] + "ONLY");
    assert " READ WRITE" == [' '] + "READ" + ([' '] + "WRITE");
  }

  lemma DeferrableWords(deferrable: bool)
    ensures Words(DeferrableText(deferrable)) == if deferrable then ["DEFERRABLE"] else ["NOT", "DEFERRABLE"]
  {
    hide Words;
    TwoWords("NOT", "DEFERRABLE");
    TwoWords("DEFERRABLE", "NOT");
    assert " NOT DEFERRABLE" == [' '] + "NOT" + ([' '] + "DEFERRABLE");
    assert " DEFERRABLE" == [' '] + "DEFERRABLE";
  }

  // The words of an isolation level follow those that announce it.
  lemma LevelWords(level: string, words: seq<string>)
    requires level != [] && Words([' '] + level) == words
    ensures Words(" ISOLATION LEVEL " + level) == ["ISOLATION", "LEVEL"] + words
  {
    hide Words;
    var rest := [' '] + level;
    OneWord("LEVEL", rest);
    OneWord("ISOLATION", [' '] + "LEVEL" + rest);
    assert " ISOLATION LEVEL " == [' '] + "ISOLATION" + ([' '] + "LEVEL" + [' ']);
    assert " ISOLATION LEVEL " + level == [' '] + "ISOLATION" + ([' '] + "LEVEL" + rest);
    assert ["ISOLATION"] + (["LEVEL"] + words) == ["ISOLATION", "LEVEL"] + words;
  }

  lemma IsolationWords(level: IsolationLevel, o: Options)
    ensures ReadMode(Words(" ISOLATION LEVEL " + IsolationText(level)), o) == Some(o.(isolation := Some(level)))
  {
    hide Words;
    match level
    case ReadUncommitted =>
      TwoWords("READ", "UNCOMMITTED");
      assert [' '] + "READ UNCOMMITTED" == [' '] + "READ" + ([' '] + "UNCOMMITTED");
      LevelWords("READ UNCOMMITTED", ["READ", "UNCOMMITTED"]);
      assert ["ISOLATION", "LEVEL"] + ["READ", "UNCOMMITTED"] == ["ISOLATION", "LEVEL", "READ", "UNCOMMITTED"];
    case ReadCommitted =>
      TwoWords("READ", "COMMITTED");
      assert [' '] + "READ COMMITTED" == [' '] + "READ" + ([' '] + "COMMITTED");
      LevelWords("READ COMMITTED", ["READ", "COMMITTED"]);
      assert ["ISOLATION", "LEVEL"] + ["READ", "COMMITTED"] == ["ISOLATION", "LEVEL", "READ", "COMMITTED"];
    case RepeatableRead =>
      TwoWords("REPEATABLE", "READ");
      assert [' '] + "REPEATABLE READ" == [' '] + "REPEATABLE" + ([' '] + "READ");
      LevelWords("REPEATABLE READ", ["REPEATABLE", "READ"]);
      assert ["ISOLATION", "LEVEL"] + ["REPEATABLE", "READ"] == ["ISOLATION", "LEVEL", "REPEATABLE", "READ"];
    case Serializable =>
      TwoWords("SERIALIZABLE", "READ");
      LevelWords("SERIALIZABLE", ["SERIALIZABLE"]);
      assert ["ISOLATION", "LEVEL"] + ["SERIALIZABLE"] == ["ISOLATION", "LEVEL", "SERIALIZABLE"];
  }

  lemma ReadModesSnoc(items: seq<string>, item: string)
    ensures ReadModes(items + [item])
         == match ReadModes(items) case None => None case Some(o) => ReadMode(Words(item), o)
  {
    assert (items + [item])[..|items|] == items;
  }

  lemma ModesRead(o: Options)
    ensures ReadModes(Modes(o)) == Some(o)
  {
    hide ReadModes, ReadMode, Words, AccessText, DeferrableText;
    var none := Options(None, None, None);
    NoModesRead();
    var first := IsolationModes(o);
    if o.isolation.Some? {
      IsolationWords(o.isolation.value, none);
      ReadModesSnoc([], first[0]);
      assert [] + [first[0]] == first;
    }
    assert ReadModes(first) == Some(none.(isolation := o.isolation));
    var second := first + match o.readOnly case None => [] case Some(b) => [AccessText(b)];
    if o.readOnly.Some? {
      ReadModesSnoc(first, AccessText(o.readOnly.value));
      AccessRead(o.readOnly.value, none.(isolation := o.isolation));
    } else {
      assert second == first;
    }
    assert ReadModes(second) == Some(o.(deferrable := None));
    if o.deferrable.Some? {
      ReadModesSnoc(second, DeferrableText(o.deferrable.value));
      DeferrableRead(o.deferrable.value, o.(deferrable := None));
    } else {
      assert Modes(o) == second;
    }
  }

  lemma NoModesRead()
    ensures ReadModes([]) == Some(Options(None, None, None))
  {}

  lemma AccessRead(readOnly: bool, o: Options)
    ensures ReadMode(Words(AccessText(readOnly)), o) == Some(o.(readOnly := Some(readOnly)))
  {
    hide Words, AccessText;
    AccessWords(readOnly);
  }

  lemma DeferrableRead(deferrable: bool, o: Options)
    ensures ReadMode(Words(DeferrableText(deferrable)), o) == Some(o.(deferrable := Some(deferrable)))
  {
    hide Words, DeferrableText;
    DeferrableWords(deferrable);
  }

  /** A server that knows the grammar of transaction modes reads the chosen options out of the statement. */
  lemma StartIsUnderstood(o: Options)
    ensures ReadStart(START_TEXT + CommaJoined(Modes(o))) == Some(o)
  {
    hide ReadModes, CommaJoined, Modes, Split;
    var text := START_TEXT + CommaJoined(Modes(o));
    assert text[..17] == START_TEXT && text[17..] == CommaJoined(Modes(o));
    ModesRead(o);
    ModesPlain(o);
    if Modes(o) == [] {
      CommaJoinedNone();
    } else {
      SplitJoined(Modes(o));
      CommaJoinedMore(Modes(o));
    }
  }

  /** Reading the modes back out of the text gives the options that were chosen. */
  lemma StartReadsBack(o: Options)
    ensures Modes(o) == if CommaJoined(Modes(o)) == [] then [] else Split(CommaJoined(Modes(o)))
    ensures forall p :: Modes(p) == Modes(o) ==> p == o
  {
    hide Modes, ReadStart, START_TEXT;
    ModesPlain(o);
    if Modes(o) != [] {
      SplitJoined(Modes(o));
      CommaJoinedMore(Modes(o));
    }
    StartIsUnderstood(o);
    forall p | Modes(p) == Modes(o)
      ensures p == o
    {
      StartIsUnderstood(p);
    }
  }

  lemma CommaJoinedMore(items: seq<string>)
    requires items != [] && items[|items| - 1] != []
    ensures CommaJoined(items) != []
  {}

  /**
   `start`, polled at least once, up to the handle or to the drop of its future; `answer` is
   `None` when the future is dropped while it waits.
   */
  method Start(client: Client, answer: Option<bool>) returns (t: Option<Transaction>)
    modifies client
    ensures t.Some? <==> answer == Some(true)
    ensures client.open ==>
      client.sent == old(client.sent) + if t.Some? then [Control.Start] else [Control.Start, Rollback]
    ensures !client.open ==> client.sent == old(client.sent)
    ensures t.Some? ==> fresh(t.value) && t.value.client == client && t.value.savepoint == None && !t.value.done
  {
    var done := false;
    client.Send(Control.Start);
    if answer == Some(true) {
      done := true;
    }
    // The guard is dropped here.
    if !done {
      client.Send(Rollback);
      return None;
    }
    var handle := new Transaction(client, None);
    return Some(handle);
  }

  // ---- Runs ----

  datatype Action<!D> =
    | Begin(kept: bool)
    | Nest(name: Option<string>, kept: bool)
    | Close(commit: bool)
    | Other(effect: Effect<D>)

  /** The live handles, outermost first, and the server after everything sent so far. */
  datatype World<D> = World(handles: seq<Option<Level>>, session: Session<D>)

  predicate Legal<D>(w: World<D>, a: Action<D>) {
    match a
    case Begin(_) => w.handles == []
    case Nest(_, _) => w.handles != []
    case Close(_) => w.handles != []
    case Other(_) => true
  }

  function Last<T>(s: seq<T>): T
    requires s != []
  {
    s[|s| - 1]
  }

  /** A cancelled or refused `SAVEPOINT` yields no handle, but the server may have obeyed it. */
  function Step<D>(w: World<D>, a: Action<D>): World<D>
    requires Legal(w, a)
  {
    var s := w.session;
    match a
    case Begin(kept) =>
      if kept then World([None], Obey(s, Control.Start)) else World([], Obey(Obey(s, Control.Start), Rollback))
    case Nest(name, kept) =>
      var level := NextLevel(Last(w.handles), name);
      World(if kept && !s.aborted then w.handles + [Some(level)] else w.handles, Obey(s, Savepoint(level.name)))
    case Close(commit) => World(w.handles[..|w.handles| - 1], Obey(s, Closing(Last(w.handles), commit)))
    case Other(effect) => w.(session := Work(s, effect))
  }

  /** A plain stack of snapshots: one for each open level. */
  datatype Plain<D> = Plain(db: D, levels: seq<D>, aborted: bool)

  function PlainStep<D>(p: Plain<D>, a: Action<D>): Plain<D> {
    match a
    case Begin(kept) => if kept then p.(levels := [p.db]) else p
    case Nest(_, kept) => if kept && !p.aborted then p.(levels := p.levels + [p.db]) else p
    case Close(commit) =>
      if p.levels == [] then p
      else if commit && !p.aborted then p.(levels := p.levels[..|p.levels| - 1])
      else if commit && |p.levels| > 1 then p.(levels := p.levels[..|p.levels| - 1])
      else Plain(Last(p.levels), p.levels[..|p.levels| - 1], false)
    case Other(effect) =>
      if p.aborted then p
      else
        match effect(p.db)
        case None => p.(aborted := p.levels != [])
        case Some(d) => p.(db := d)
  }

  /** The server is where the plain stack says it should be. */
  ghost predicate Agrees<D>(w: World<D>, p: Plain<D>) {
    && |w.handles| == |p.levels|
    && w.session.current == p.db && w.session.aborted == p.aborted
    && w.session.active == (p.levels != [])
    && w.session.committed == (if p.levels == [] then p.db else p.levels[0])
  }

  // ---- The savepoints behind the live levels ----

  // The savepoint of a live level is at `at`, and no later one of its name tells otherwise.
  ghost predicate Standing<D>(stack: seq<Mark<D>>, name: string, snapshot: D, at: nat) {
    && at < |stack| && stack[at] == Mark(name, snapshot)
    && (forall q :: at <= q < |stack| && stack[q].name == name ==> stack[q].snapshot == snapshot)
  }

  ghost predicate Marked<D>(w: World<D>, p: Plain<D>, at: seq<nat>) {
    && |at| == |w.handles| == |p.levels|
    && (forall i :: 0 <= i < |at| ==> (w.handles[i].None? <==> i == 0))
    && (forall i :: 1 <= i < |at| ==> Standing(w.session.stack, w.handles[i].value.name, p.levels[i], at[i]))
    && (forall i, j :: 1 <= i < j < |at| ==> at[i] < at[j])
  }

  ghost predicate Inv<D>(w: World<D>, p: Plain<D>) {
    Agrees(w, p) && (w.session.active || !w.session.aborted) && exists at :: Marked(w, p, at)
  }

  function NewName<D>(w: World<D>, a: Action<D>): string
    requires a.Nest? && w.handles != []
  {
    NextLevel(Last(w.handles), a.name).name
  }

  /** A name already live may be used again only while nothing has changed since that level began. */
  ghost predicate SafeName<D>(w: World<D>, p: Plain<D>, name: string)
    requires |w.handles| == |p.levels|
  {
    forall i :: 1 <= i < |w.handles| && w.handles[i].Some? && w.handles[i].value.name == name ==> p.levels[i] == p.db
  }

  ghost predicate Allowed<D>(w: World<D>, p: Plain<D>, a: Action<D>) {
    Legal(w, a) && |w.handles| == |p.levels| && (a.Nest? ==> SafeName(w, p, NewName(w, a)))
  }

  lemma StandingPush<D>(stack: seq<Mark<D>>, name: string, snapshot: D, at: nat, m: Mark<D>)
    requires Standing(stack, name, snapshot, at) && (m.name == name ==> m.snapshot == snapshot)
    ensures Standing(stack + [m], name, snapshot, at)
  {}

  lemma StandingCut<D>(stack: seq<Mark<D>>, name: string, snapshot: D, at: nat, n: nat)
    requires Standing(stack, name, snapshot, at) && at < n <= |stack|
    ensures Standing(stack[..n], name, snapshot, at)
  {}

  lemma NestKeeps<D>(w: World<D>, p: Plain<D>, a: Action<D>)
    requires Inv(w, p) && a.Nest? && Allowed(w, p, a)
    ensures Inv(Step(w, a), PlainStep(p, a))
  {
    var at: seq<nat> :| Marked(w, p, at);
    var w', p' := Step(w, a), PlainStep(p, a);
    if !w.session.aborted {
      var m := Mark(NewName(w, a), w.session.current);
      forall i | 1 <= i < |at|
        ensures Standing(w'.session.stack, w.handles[i].value.name, p.levels[i], at[i])
      {
        StandingPush(w.session.stack, w.handles[i].value.name, p.levels[i], at[i], m);
      }
      assert Marked(w', p', if a.kept then at + [|w.session.stack|] else at);
    } else {
      assert Marked(w', p', at);
    }
  }

  // Closing a nested level acts on its own savepoint or a later one of its name.
  lemma CloseNested<D>(s: Session<D>, name: string, snapshot: D, at: nat, commit: bool)
    requires s.active && Standing(s.stack, name, snapshot, at)
    ensures var s' := Obey(s, if commit then Release(name) else RollbackTo(name));
      && s'.active && s'.committed == s.committed && at <= |s'.stack| && s'.stack == s.stack[..|s'.stack|]
      && s'.aborted == (s.aborted && commit)
      && s'.current == if commit then s.current else snapshot
  {
    var top := Topmost(s.stack, name);
    assert top.Some? && at <= top.value;
  }

  lemma CloseKeeps<D>(w: World<D>, p: Plain<D>, a: Action<D>, at: seq<nat>)
    requires Agrees(w, p) && Marked(w, p, at) && a.Close? && Legal(w, a)
    ensures Agrees(Step(w, a), PlainStep(p, a))
    ensures Marked(Step(w, a), PlainStep(p, a), at[..|at| - 1])
  {
    hide Standing, Topmost;
    var w', p' := Step(w, a), PlainStep(p, a);
    var k := |at| - 1;
    if k > 0 {
      var stack := w.session.stack;
      CloseNested(w.session, w.handles[k].value.name, p.levels[k], at[k], a.commit);
      hide Obey;
      forall i | 1 <= i < k
        ensures Standing(w'.session.stack, w'.handles[i].value.name, p'.levels[i], at[i])
      {
        StandingCut(stack, w.handles[i].value.name, p.levels[i], at[i], |w'.session.stack|);
      }
    }
  }

  /** Every step keeps the server and the plain stack in agreement. */
  lemma StepKeeps<D>(w: World<D>, p: Plain<D>, a: Action<D>)
    requires Inv(w, p) && Allowed(w, p, a)
    ensures Inv(Step(w, a), PlainStep(p, a))
  {
    var at: seq<nat> :| Marked(w, p, at);
    match a {
      case Begin(kept) =>
        assert Marked(Step(w, a), PlainStep(p, a), if kept then [0] else []);
      case Nest(_, _) =>
        NestKeeps(w, p, a);
      case Close(_) =>
        CloseKeeps(w, p, a, at);
      case Other(_) =>
        assert Marked(Step(w, a), PlainStep(p, a), at);
    }
  }

  ghost predicate Run<D>(w: World<D>, p: Plain<D>, actions: seq<Action<D>>)
    decreases |actions|
  {
    actions == [] ||
    (Allowed(w, p, actions[0]) && Run(Step(w, actions[0]), PlainStep(p, actions[0]), actions[1..]))
  }

  ghost function After<D>(w: World<D>, p: Plain<D>, actions: seq<Action<D>>): (World<D>, Plain<D>)
    requires Run(w, p, actions)
    decreases |actions|
  {
    if actions == [] then (w, p) else After(Step(w, actions[0]), PlainStep(p, actions[0]), actions[1..])
  }

  lemma {:induction false} RunKeeps<D>(w: World<D>, p: Plain<D>, actions: seq<Action<D>>)
    requires Inv(w, p) && Run(w, p, actions)
    ensures Inv(After(w, p, actions).0, After(w, p, actions).1)
    decreases |actions|
  {
    if actions != [] {
      StepKeeps(w, p, actions[0]);
      RunKeeps(Step(w, actions[0]), PlainStep(p, actions[0]), actions[1..]);
    }
  }

  /**
   Every run of nested transactions from an idle session is a run of the plain stack: a
   rollback restores the state its level began with and a commit keeps its changes, whatever
   savepoints earlier siblings, failures and cancellations left on the server.
   */
  lemma RefinesPlainStack<D>(db: D, actions: seq<Action<D>>)
    requires Run(World([], Idle(db)), Plain(db, [], false), actions)
    ensures var (w, p) := After(World([], Idle(db)), Plain(db, [], false), actions); Agrees(w, p)
  {
    assert Marked(World([], Idle(db)), Plain(db, [], false), []);
    RunKeeps(World([], Idle(db)), Plain(db, [], false), actions);
  }

  // ---- Which names are safe ----

  lemma {:induction false} RunOn<D>(w: World<D>, p: Plain<D>, first: seq<Action<D>>, a: Action<D>)
    requires Run(w, p, first)
    requires var (w', p') := After(w, p, first); Allowed(w', p', a)
    ensures Run(w, p, first + [a])
    ensures var (w', p') := After(w, p, first); After(w, p, first + [a]) == (Step(w', a), PlainStep(p', a))
    decreases |first|
  {
    if first == [] {
      assert first + [a] == [a];
      assert After(Step(w, a), PlainStep(p, a), []) == (Step(w, a), PlainStep(p, a));
    } else {
      RunOn(Step(w, first[0]), PlainStep(p, first[0]), first[1..], a);
      assert (first + [a])[1..] == first[1..] + [a];
    }
  }

  // Commits of nested levels of an aborted transaction are refused, and leave its savepoints.
  lemma {:induction false} GiveUp<D>(w: World<D>, p: Plain<D>, n: nat) returns (actions: seq<Action<D>>)
    requires 1 <= n <= |w.handles| == |p.levels| && w.session.active && w.session.aborted && p.aborted
    requires forall i :: 0 <= i < |w.handles| ==> (w.handles[i].None? <==> i == 0)
    ensures Run(w, p, actions)
    ensures After(w, p, actions) == (w.(handles := w.handles[..n]), p.(levels := p.levels[..n]))
    decreases |w.handles|
  {
    if n == |w.handles| {
      actions := [];
      assert w.handles[..n] == w.handles && p.levels[..n] == p.levels;
    } else {
      var a: Action<D> := Close(true);
      var w', p' := Step(w, a), PlainStep(p, a);
      assert w'.handles[..n] == w.handles[..n] && p'.levels[..n] == p.levels[..n];
      var rest := GiveUp(w', p', n);
      actions := [a] + rest;
      assert actions[1..] == rest;
    }
  }

  // The aborted transaction with the second savepoint of that name on top.
  lemma TopWins<D>(s: Session<D>, name: string, below: seq<Mark<D>>, db: D)
    requires s.active && s.stack == below + [Mark(name, db)]
    ensures Obey(s, RollbackTo(name)).current == db
  {
    assert Topmost(s.stack, name) == Some(|below|);
  }

  // A live name used again after a change: abort, give up down to that level, roll it back.
  lemma UnsafeNameBreaks<D>(w: World<D>, p: Plain<D>, name: string) returns (rest: seq<Action<D>>)
    requires Inv(w, p) && w.handles != [] && !w.session.aborted && !SafeName(w, p, name)
    ensures var a := Nest(Some(name), true); var (w', p') := (Step(w, a), PlainStep(p, a));
      Run(w', p', rest) && !Agrees(After(w', p', rest).0, After(w', p', rest).1)
  {
    hide Standing, Topmost;
    var at: seq<nat> :| Marked(w, p, at);
    var i :| 1 <= i < |w.handles| && w.handles[i].Some? && w.handles[i].value.name == name && p.levels[i] != p.db;
    hide Marked, SafeName;
    var a: Action<D> := Nest(Some(name), true);
    var w1, p1 := Step(w, a), PlainStep(p, a);
    assert forall k :: 0 <= k < |w1.handles| ==> (w1.handles[k].None? <==> k == 0);
    rest := Undo(w1, p1, i, w.session.stack, p.db);
  }

  lemma RunCons<D>(w: World<D>, p: Plain<D>, a: Action<D>, rest: seq<Action<D>>)
    requires Allowed(w, p, a) && Run(Step(w, a), PlainStep(p, a), rest)
    ensures Run(w, p, [a] + rest) && After(w, p, [a] + rest) == After(Step(w, a), PlainStep(p, a), rest)
  {
    hide Allowed, Step, PlainStep;
    assert ([a] + rest)[1..] == rest;
  }

  // The run that shows it, from just after the second savepoint of that name.
  lemma Undo<D>(w: World<D>, p: Plain<D>, i: nat, below: seq<Mark<D>>, db: D) returns (rest: seq<Action<D>>)
    requires 1 <= i < |w.handles| == |p.levels| && w.session.active && !w.session.aborted && !p.aborted
    requires forall k :: 0 <= k < |w.handles| ==> (w.handles[k].None? <==> k == 0)
    requires w.session.stack == below + [Mark(w.handles[i].value.name, db)] && p.levels[i] != db
    ensures Run(w, p, rest) && !Agrees(After(w, p, rest).0, After(w, p, rest).1)
  {
    hide Run, After, Obey;
    var fail: Action<D> := Other(_ => None);
    var w2, p2 := Step(w, fail), PlainStep(p, fail);
    assert w2 == w.(session := w.session.(aborted := true)) && p2 == p.(aborted := true);
    var down := GiveUp(w2, p2, i + 1);
    RunCons(w, p, fail, down);
    var first := [fail] + down;
    var (w3, p3) := (w2.(handles := w.handles[..i + 1]), p2.(levels := p.levels[..i + 1]));
    TopWins(w3.session, w.handles[i].value.name, below, db);
    RunOn(w, p, first, Close(false));
    rest := first + [Close(false)];
  }

  /**
   A savepoint name is safe, over everything that may happen afterwards, exactly when every
   live level of that name still sees the state it began with.
   */
  lemma SafeNames<D(!new)>(w: World<D>, p: Plain<D>, name: string)
    requires Inv(w, p) && w.handles != [] && !w.session.aborted
    ensures var a := Nest(Some(name), true); var (w', p') := (Step(w, a), PlainStep(p, a));
      (SafeName(w, p, name) <==>
        forall rest :: Run(w', p', rest) ==> Agrees(After(w', p', rest).0, After(w', p', rest).1))
  {
    var a: Action<D> := Nest(Some(name), true);
    var w', p' := Step(w, a), PlainStep(p, a);
    if SafeName(w, p, name) {
      StepKeeps(w, p, a);
      forall rest | Run(w', p', rest)
        ensures Agrees(After(w', p', rest).0, After(w', p', rest).1)
      {
        RunKeeps(w', p', rest);
      }
    } else {
      var rest := UnsafeNameBreaks(w, p, name);
    }
  }

  // ---- Automatic names ----

  lemma AutomaticNamesDiffer(m: nat, n: nat)
    requires AutomaticName(m) == AutomaticName(n)
    ensures m == n
  {
    Cancel("sp_", Decimal(m), Decimal(n));
    DecimalValue(m);
    DecimalValue(n);
  }

  /** Every live level is named by its own depth. */
  ghost predicate AllAutomatic<D>(w: World<D>) {
    forall i :: 0 <= i < |w.handles| ==> w.handles[i] == if i == 0 then None else Some(Level(AutomaticName(i), i))
  }

  predicate Unnamed<D>(a: Action<D>) {
    a.Nest? ==> a.name == None
  }

  lemma AutomaticStep<D>(w: World<D>, p: Plain<D>, a: Action<D>)
    requires AllAutomatic(w) && |w.handles| == |p.levels| && Legal(w, a) && Unnamed(a)
    ensures Allowed(w, p, a) && AllAutomatic(Step(w, a))
  {
    hide AutomaticName;
    if a.Nest? {
      forall i | 1 <= i < |w.handles|
        ensures w.handles[i].value.name != NewName(w, a)
      {
        if w.handles[i].value.name == NewName(w, a) {
          AutomaticNamesDiffer(i, |w.handles|);
        }
      }
    }
  }

  predicate LegalRun<D>(w: World<D>, actions: seq<Action<D>>)
    decreases |actions|
  {
    actions == [] || (Legal(w, actions[0]) && LegalRun(Step(w, actions[0]), actions[1..]))
  }

  lemma {:induction false} AutomaticRun<D>(w: World<D>, p: Plain<D>, actions: seq<Action<D>>)
    requires Inv(w, p) && AllAutomatic(w) && LegalRun(w, actions)
    requires forall i :: 0 <= i < |actions| ==> Unnamed(actions[i])
    ensures Run(w, p, actions)
    decreases |actions|
  {
    if actions != [] {
      AutomaticStep(w, p, actions[0]);
      StepKeeps(w, p, actions[0]);
      AutomaticRun(Step(w, actions[0]), PlainStep(p, actions[0]), actions[1..]);
    }
  }

  /** With automatic names alone, nesting refines the plain stack without any condition. */
  lemma AutomaticNamesRefine<D>(db: D, actions: seq<Action<D>>)
    requires LegalRun(World([], Idle(db)), actions)
    requires forall i :: 0 <= i < |actions| ==> Unnamed(actions[i])
    ensures Run(World([], Idle(db)), Plain(db, [], false), actions)
    ensures var (w, p) := After(World([], Idle(db)), Plain(db, [], false), actions); Agrees(w, p)
  {
    assert Marked(World([], Idle(db)), Plain(db, [], false), []);
    AutomaticRun(World([], Idle(db)), Plain(db, [], false), actions);
    RefinesPlainStack(db, actions);
  }

  // "sp_2" chosen at depth one is what depth two is called.
  lemma AutomaticMeetsChosen()
    ensures NextLevel(Some(NextLevel(None, Some("sp_2"))), None).name == "sp_2"
  {
    assert Decimal(2) == "2";
  }

  const TO_ONE: Effect<int> := _ => Some(1)

  /**
   An automatic name can be unsafe: after a level the user called "sp_2" and a change, the
   next automatic name is "sp_2" again, and some run from there leaves server and plain stack
   apart.
   */
  lemma AutomaticNameBreaks() returns (actions: seq<Action<int>>, rest: seq<Action<int>>)
    ensures actions == [Begin(true), Nest(Some("sp_2"), true), Other(TO_ONE)]
    ensures Run(World([], Idle(0)), Plain(0, [], false), actions)
    ensures var (w, p) := After(World([], Idle(0)), Plain(0, [], false), actions);
      var a: Action<int> := Nest(None, true);
      && Inv(w, p) && w.handles != [] && !SafeName(w, p, NewName(w, a))
      && Run(Step(w, a), PlainStep(p, a), rest)
      && !Agrees(After(Step(w, a), PlainStep(p, a), rest).0, After(Step(w, a), PlainStep(p, a), rest).1)
  {
    var begin: Action<int>, nest: Action<int>, change: Action<int> :=
      Begin(true), Nest(Some("sp_2"), true), Other(TO_ONE);
    actions := [begin, nest, change];
    var w0, p0 := World([], Idle(0)), Plain(0, [], false);
    var w1, p1 := Step(w0, begin), PlainStep(p0, begin);
    var w2, p2 := Step(w1, nest), PlainStep(p1, nest);
    var w3, p3 := Step(w2, change), PlainStep(p2, change);
    assert actions[1..] == [nest, change] && actions[1..][1..] == [change] && [change][1..] == [];
    assert Run(w3, p3, []) && Run(w2, p2, [change]) && Run(w1, p1, [nest, change]);
    assert After(w0, p0, actions) == After(w2, p2, [change]) == After(w3, p3, []);
    assert Marked(w0, p0, []);
    RunKeeps(w0, p0, actions);
    AutomaticMeetsChosen();
    assert Last(w3.handles) == Some(Level("sp_2", 1));
    assert Step(w3, Nest(None, true)) == Step(w3, Nest(Some("sp_2"), true));
    assert !SafeName(w3, p3, "sp_2") by {
      assert w3.handles[1].value.name == "sp_2";
    }
    rest := UnsafeNameBreaks(w3, p3, "sp_2");
  }
}
