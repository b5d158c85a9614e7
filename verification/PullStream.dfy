/** The daemon's pull progress stream: framing, lines and job state (src/dockerpull.rs). */
module PullStream {
  import opened Wrappers
  import opened Bytes
  import opened Strings

  const NEWLINE: Byte := 10

  /** What the JSON of one line says; a keepalive, or anything unreadable or without a status, is ignored. */
  datatype Message =
    | Ignored
    | Error(text: string)
    | Progress(status: string, id: Option<string>, current: nat, total: nat)

  type Decoder = Data -> Message

  datatype Layer = Layer(status: string, current: nat, total: nat)

  datatype State = State(message: string, layers: map<string, Layer>, layerOrder: seq<string>)

  function Apply(s: State, m: Message): State {
    match m
    case Progress(status, None, _, _) => s.(message := status)
    case Progress(status, Some(id), current, total) =>
      var known := if id in s.layers then s.layers[id] else Layer(status, 0, 0);
      var layer := Layer(status, if current > 0 then current else known.current,
                         if total > 0 then total else known.total);
      s.(layers := s.layers[id := layer], layerOrder := if id in s.layers then s.layerOrder else s.layerOrder + [id])
    case _ => s
  }

  /** Every complete line of `bytes` in turn, up to the first error line; what follows the last newline is not read. */
  function Pull(decode: Decoder, s: State, bytes: Data): (State, Option<string>)
    decreases |bytes|
  {
    match Find(bytes, [NEWLINE])
    case None => (s, None)
    case Some(end) =>
      match decode(bytes[..end + 1])
      case Error(text) => (s, Some(text))
      case m => Pull(decode, Apply(s, m), bytes[end + 1..])
  }

  /** `Broken`: an idle timeout, a transport error, or a frame that is not data. */
  datatype Frame = Piece(bytes: Data) | Broken

  /** All bytes up to the first broken frame. */
  function Stream(frames: seq<Frame>): Data {
    if frames == [] || frames[0].Broken? then [] else frames[0].bytes + Stream(frames[1..])
  }

  datatype Failure = Daemon(text: string) | Interrupted | NoFinalStatus(last: string)

  function Outcome(pulled: (State, Option<string>), broken: bool): Result<string, Failure> {
    if pulled.1.Some? then Err(Daemon(pulled.1.value))
    else if broken then Err(Interrupted)
    else if "Status:" <= pulled.0.message then Ok(pulled.0.message)
    else Err(NoFinalStatus(pulled.0.message))
  }

  lemma FirstNewline(buf: Data, more: Data)
    requires Find(buf, [NEWLINE]).Some?
    ensures Find(buf + more, [NEWLINE]) == Find(buf, [NEWLINE])
    ensures var end := Find(buf, [NEWLINE]).value;
            (buf + more)[..end + 1] == buf[..end + 1] && (buf + more)[end + 1..] == buf[end + 1..] + more
  {
    var end := Find(buf, [NEWLINE]).value;
    forall i: nat | i <= end
      ensures At(buf, [NEWLINE], i) <==> At(buf + more, [NEWLINE], i)
    {
      assert i + 1 <= |buf| ==> buf[i..i + 1] == (buf + more)[i..i + 1];
    }
  }

  /** Taking the first complete line off the buffer leaves the rest of the pull the same. */
  lemma TakeLine(decode: Decoder, s: State, buf: Data, more: Data)
    requires Find(buf, [NEWLINE]).Some?
    ensures var end := Find(buf, [NEWLINE]).value;
            Pull(decode, s, buf + more) ==
              if decode(buf[..end + 1]).Error? then (s, Some(decode(buf[..end + 1]).text))
              else Pull(decode, Apply(s, decode(buf[..end + 1])), buf[end + 1..] + more)
  {
    FirstNewline(buf, more);
  }

  class PullJob {
    var message: string
    var layers: map<string, Layer>
    var layerOrder: seq<string>

    constructor ()
      ensures Current() == State("connecting to docker daemon", map[], [])
    {
      message, layers, layerOrder := "connecting to docker daemon", map[], [];
    }

    function Current(): State
      reads this
    {
      State(message, layers, layerOrder)
    }

    method ApplyProgressLine(decode: Decoder, line: Data) returns (error: Option<string>)
      modifies this
      ensures error == if decode(line).Error? then Some(decode(line).text) else None
      ensures Current() == Apply(old(Current()), decode(line))
    {
      match decode(line) {
        case Ignored =>
          error := None;
        case Error(text) =>
          error := Some(text);
        case Progress(status, id, current, total) =>
          error := None;
          if id.Some? {
            if id.value !in layers {
              layerOrder := layerOrder + [id.value];
              layers := layers[id.value := Layer(status, 0, 0)];
            }
            var layer := layers[id.value].(status := status);
            if total > 0 {
              layer := layer.(total := total);
            }
            if current > 0 {
              layer := layer.(current := current);
            }
            layers := layers[id.value := layer];
          } else {
            message := status;
          }
      }
    }

    /** Apply the complete lines of the buffer, up to the first error line; `rest` is what is still to come. */
    method DrainLines(decode: Decoder, bytes: Data, ghost rest: Data) returns (buf: Data, error: Option<string>)
      modifies this
      ensures error.Some? ==> Pull(decode, old(Current()), bytes + rest) == (Current(), error)
      ensures error.None? ==> Pull(decode, old(Current()), bytes + rest) == Pull(decode, Current(), buf + rest)
      ensures error.None? ==> Find(buf, [NEWLINE]).None?
    {
      buf := bytes;
      while Find(buf, [NEWLINE]).Some?
        invariant Pull(decode, old(Current()), bytes + rest) == Pull(decode, Current(), buf + rest)
        decreases |buf|
      {
        var end := Find(buf, [NEWLINE]).value;
        TakeLine(decode, Current(), buf, rest);
        error := ApplyProgressLine(decode, buf[..end + 1]);
        if error.Some? {
          return;
        }
        buf := buf[end + 1..];
      }
      error := None;
    }

    /**
     The outcome and the job's state depend on the bytes before a break, and on whether there is one, not on
     the frames.
     */
    method DockerPull(decode: Decoder, frames: seq<Frame>) returns (r: Result<string, Failure>)
      modifies this
      ensures Current() == Pull(decode, old(Current()), Stream(frames)).0
      ensures r == Outcome(Pull(decode, old(Current()), Stream(frames)), Broken in frames)
    {
      var buf: Data, n := [], 0;
      ghost var goal := Pull(decode, Current(), Stream(frames));
      FirstFrame(frames);
      while n < |frames|
        invariant 0 <= n <= |frames|
        invariant Broken !in frames[..n]
        invariant Find(buf, [NEWLINE]).None?
        invariant goal == Pull(decode, Current(), buf + Stream(frames[n..]))
      {
        NextFrame(decode, Current(), frames, n, buf);
        if frames[n].Broken? {
          return Err(Interrupted);
        }
        var error;
        buf, error := DrainLines(decode, buf + frames[n].bytes, Stream(frames[n + 1..]));
        if error.Some? {
          return Err(Daemon(error.value));
        }
        n := n + 1;
      }
      NoFrame(decode, Current(), frames, buf);
      r := if "Status:" <= message then Ok(message) else Err(NoFinalStatus(message));
    }
  }

  /** A frame moves its bytes to the buffer; a broken one ends the stream. */
  lemma NextFrame(decode: Decoder, s: State, frames: seq<Frame>, n: nat, buf: Data)
    requires n < |frames| && Find(buf, [NEWLINE]).None?
    ensures frames[n].Piece? ==>
      buf + Stream(frames[n..]) == (buf + frames[n].bytes) + Stream(frames[n + 1..])
    ensures frames[n].Broken? ==> Pull(decode, s, buf + Stream(frames[n..])) == (s, None) && Broken in frames
    ensures frames[..n + 1] == frames[..n] + [frames[n]]
  {
    StreamAt(frames, n);
    if frames[n].Broken? {
      assert buf + [] == buf;
    } else {
      var rest := Stream(frames[n + 1..]);
      assert buf + (frames[n].bytes + rest) == (buf + frames[n].bytes) + rest;
    }
  }

  lemma FirstFrame(frames: seq<Frame>)
    ensures frames[0..] == frames && [] + Stream(frames) == Stream(frames) && Find([], [NEWLINE]).None?
  {
  }

  lemma NoFrame(decode: Decoder, s: State, frames: seq<Frame>, buf: Data)
    requires Find(buf, [NEWLINE]).None?
    ensures Pull(decode, s, buf + Stream(frames[|frames|..])) == (s, None)
    ensures frames[..|frames|] == frames
  {
    assert buf + Stream(frames[|frames|..]) == buf;
  }

  lemma StreamAt(frames: seq<Frame>, n: nat)
    requires n < |frames|
    ensures frames[n..][0] == frames[n] && frames[n..][1..] == frames[n + 1..]
    ensures Stream(frames[n..]) == if frames[n].Broken? then [] else frames[n].bytes + Stream(frames[n + 1..])
  {
  }

  // ---------- lines, messages, outcome ----------

  /** Bytes up to the first broken frame, none after it. */
  lemma {:induction false} StreamExactly(frames: seq<Frame>, n: nat)
    requires n <= |frames| && (forall i :: 0 <= i < n ==> frames[i].Piece?) && (n < |frames| ==> frames[n].Broken?)
    ensures Stream(frames) == Concat(seq(n, i requires 0 <= i < n => frames[i].bytes))
    ensures Broken in frames <==> n < |frames|
  {
    var pieces := seq(n, i requires 0 <= i < n => frames[i].bytes);
    if n > 0 {
      StreamExactly(frames[1..], n - 1);
      assert pieces[1..] == seq(n - 1, i requires 0 <= i < n - 1 => frames[1..][i].bytes);
      assert frames == [frames[0]] + frames[1..];
    }
  }

  /** The complete lines, each with its newline. */
  function Lines(bytes: Data): seq<Data>
    decreases |bytes|
  {
    match Find(bytes, [NEWLINE])
    case None => []
    case Some(end) => [bytes[..end + 1]] + Lines(bytes[end + 1..])
  }

  predicate IsLine(line: Data) {
    line != [] && line[|line| - 1] == 10 && forall i :: 0 <= i < |line| - 1 ==> line[i] != 10
  }

  lemma FirstIsNewline(bytes: Data)
    ensures Find(bytes, [NEWLINE]).None? ==> 10 !in bytes
    ensures Find(bytes, [NEWLINE]).Some? ==> IsLine(bytes[..Find(bytes, [NEWLINE]).value + 1])
  {
    forall i: nat | i < |bytes|
      ensures At(bytes, [NEWLINE], i) <==> bytes[i] == 10
    {
      assert bytes[i..i + 1] == [bytes[i]];
    }
  }

  /** The bytes are the lines, each with one newline at its end, and a rest without any. */
  lemma {:induction false} LinesExactly(bytes: Data) returns (rest: Data)
    ensures bytes == Concat(Lines(bytes)) + rest && 10 !in rest
    ensures forall k :: 0 <= k < |Lines(bytes)| ==> IsLine(Lines(bytes)[k])
    decreases |bytes|
  {
    FirstIsNewline(bytes);
    match Find(bytes, [NEWLINE]) {
      case None =>
        rest := bytes;
      case Some(end) =>
        rest := LinesExactly(bytes[end + 1..]);
        var more := Concat(Lines(bytes[end + 1..]));
        assert bytes == bytes[..end + 1] + (more + rest) == (bytes[..end + 1] + more) + rest;
    }
  }

  /** The messages are those of the lines before the first error line, which is the answer. */
  ghost predicate UpToError(decode: Decoder, lines: seq<Data>, messages: seq<Message>, error: Option<string>) {
    && |messages| <= |lines|
    && (forall k :: 0 <= k < |messages| ==> messages[k] == decode(lines[k]) && !messages[k].Error?)
    && (|messages| < |lines| ==> decode(lines[|messages|]).Error?)
    && error == if |messages| < |lines| then Some(decode(lines[|messages|]).text) else None
  }

  ghost predicate HasError(decode: Decoder, lines: seq<Data>) {
    exists k :: 0 <= k < |lines| && decode(lines[k]).Error?
  }

  lemma OneMoreLine(decode: Decoder, line: Data, lines: seq<Data>, messages: seq<Message>, error: Option<string>)
    requires UpToError(decode, lines, messages, error) && !decode(line).Error?
    ensures UpToError(decode, [line] + lines, [decode(line)] + messages, error)
  {
  }

  lemma {:induction false} MessagesExactly(decode: Decoder, s: State, bytes: Data)
    ensures UpToError(decode, Lines(bytes), Messages(decode, bytes), Pull(decode, s, bytes).1)
    decreases |bytes|
  {
    match Find(bytes, [NEWLINE]) {
      case None =>
      case Some(end) =>
        var line, rest := bytes[..end + 1], bytes[end + 1..];
        if !decode(line).Error? {
          MessagesExactly(decode, Apply(s, decode(line)), rest);
          OneMoreLine(decode, line, Lines(rest), Messages(decode, rest), Pull(decode, s, bytes).1);
        }
    }
  }

  /**
   A pull succeeds exactly if no complete line is an error, the stream did not break, and the last status about no
   layer starts with `Status:`, and that is its answer. The first error line comes first, then the break.
   */
  lemma OutcomeExactly(decode: Decoder, first: string, frames: seq<Frame>)
    ensures var r, lines := After(decode, State(first, map[], []), frames).1, Lines(Stream(frames));
            var messages := Messages(decode, Stream(frames));
            var failed := HasError(decode, lines);
            var status := LastStatus(messages, first);
            && (r.Ok? <==> !failed && Broken !in frames && "Status:" <= status)
            && (r.Ok? ==> r.value == status)
            && (failed ==> |messages| < |lines| && decode(lines[|messages|]).Error?)
            && (failed ==> r == Err(Daemon(decode(lines[|messages|]).text)))
            && (!failed && Broken in frames ==> r == Err(Interrupted))
            && (!failed && Broken !in frames && !r.Ok? ==> r == Err(NoFinalStatus(status)))
  {
    var s := State(first, map[], []);
    var lines, messages := Lines(Stream(frames)), Messages(decode, Stream(frames));
    MessagesExactly(decode, s, Stream(frames));
    ErrorOrAll(decode, lines, messages, Pull(decode, s, Stream(frames)).1);
    MessageIsLast(decode, first, Stream(frames));
    OutcomeOf(Pull(decode, s, Stream(frames)), Broken in frames);
  }

  lemma OutcomeOf(pulled: (State, Option<string>), broken: bool)
    ensures var r := Outcome(pulled, broken);
            && (r.Ok? <==> pulled.1.None? && !broken && "Status:" <= pulled.0.message)
            && (r.Ok? ==> r.value == pulled.0.message)
            && (pulled.1.Some? ==> r == Err(Daemon(pulled.1.value)))
            && (pulled.1.None? && broken ==> r == Err(Interrupted))
            && (pulled.1.None? && !broken && !r.Ok? ==> r == Err(NoFinalStatus(pulled.0.message)))
  {
  }

  lemma ErrorOrAll(decode: Decoder, lines: seq<Data>, messages: seq<Message>, error: Option<string>)
    requires UpToError(decode, lines, messages, error)
    ensures HasError(decode, lines) <==> |messages| < |lines|
    ensures |messages| < |lines| ==> decode(lines[|messages|]).Error? && error == Some(decode(lines[|messages|]).text)
    ensures |messages| == |lines| ==> error == None
  {
    assert forall k :: 0 <= k < |messages| ==> !decode(lines[k]).Error?;
  }

  lemma MessageIsLast(decode: Decoder, first: string, bytes: Data)
    ensures Pull(decode, State(first, map[], []), bytes).0.message == LastStatus(Messages(decode, bytes), first)
  {
    PullTells(decode, [], first, State(first, map[], []), bytes);
    assert [] + Messages(decode, bytes) == Messages(decode, bytes);
  }

  // ---------- what the state means ----------

  /** The messages of the lines that are applied, in order. */
  function Messages(decode: Decoder, bytes: Data): seq<Message>
    decreases |bytes|
  {
    match Find(bytes, [NEWLINE])
    case None => []
    case Some(end) =>
      if decode(bytes[..end + 1]).Error? then []
      else [decode(bytes[..end + 1])] + Messages(decode, bytes[end + 1..])
  }

  predicate Names(m: Message, id: string) { m.Progress? && m.id == Some(id) }

  /** Layer names in the order of the messages, with repetitions. */
  function Ids(messages: seq<Message>): seq<string> {
    if messages == [] then []
    else
      var last := messages[|messages| - 1];
      Ids(messages[..|messages| - 1]) + if last.Progress? && last.id.Some? then [last.id.value] else []
  }

  /** The last positive total reported for a layer, 0 without one. */
  function LastTotal(messages: seq<Message>, id: string): nat {
    if messages == [] then 0
    else
      var last := messages[|messages| - 1];
      if Names(last, id) && last.total > 0 then last.total else LastTotal(messages[..|messages| - 1], id)
  }

  function LastCurrent(messages: seq<Message>, id: string): nat {
    if messages == [] then 0
    else
      var last := messages[|messages| - 1];
      if Names(last, id) && last.current > 0 then last.current else LastCurrent(messages[..|messages| - 1], id)
  }

  /** The status of the last message about no layer, `first` without one. */
  function LastStatus(messages: seq<Message>, first: string): string {
    if messages == [] then first
    else
      var last := messages[|messages| - 1];
      if last.Progress? && last.id.None? then last.status else LastStatus(messages[..|messages| - 1], first)
  }

  predicate HasTotal(m: Message, id: string) { Names(m, id) && m.total > 0 }

  predicate HasCurrent(m: Message, id: string) { Names(m, id) && m.current > 0 }

  predicate IsGeneral(m: Message) { m.Progress? && m.id.None? }

  /** Those three are what the last message of their kind says; `k` is any message with none of the kind after it. */
  lemma {:induction false} LastIsLast(messages: seq<Message>, first: string, id: string, k: nat)
    requires k < |messages|
    ensures HasTotal(messages[k], id) && (forall j :: k < j < |messages| ==> !HasTotal(messages[j], id)) ==>
      LastTotal(messages, id) == messages[k].total
    ensures HasCurrent(messages[k], id) && (forall j :: k < j < |messages| ==> !HasCurrent(messages[j], id)) ==>
      LastCurrent(messages, id) == messages[k].current
    ensures IsGeneral(messages[k]) && (forall j :: k < j < |messages| ==> !IsGeneral(messages[j])) ==>
      LastStatus(messages, first) == messages[k].status
  {
    if k < |messages| - 1 {
      LastIsLast(messages[..|messages| - 1], first, id, k);
    }
  }

  lemma {:induction false} NoneIsInitial(messages: seq<Message>, first: string, id: string)
    ensures (forall m :: m in messages ==> !HasTotal(m, id)) ==> LastTotal(messages, id) == 0
    ensures (forall m :: m in messages ==> !HasCurrent(m, id)) ==> LastCurrent(messages, id) == 0
    ensures (forall m :: m in messages ==> !IsGeneral(m)) ==> LastStatus(messages, first) == first
  {
    if messages != [] {
      assert messages[|messages| - 1] in messages;
      NoneIsInitial(messages[..|messages| - 1], first, id);
    }
  }

  /** Message `k` is the last one about the layer. */
  ghost predicate LastFor(messages: seq<Message>, id: string, k: nat) {
    k < |messages| && Names(messages[k], id) && forall j :: k < j < |messages| ==> !Names(messages[j], id)
  }

  /** The order lists each layer once, by first message; each layer has its latest status and last positive numbers. */
  ghost predicate Tells(messages: seq<Message>, first: string, s: State) {
    && s.message == LastStatus(messages, first)
    && s.layerOrder == Dedup(Ids(messages))
    && (forall id :: id in s.layers <==> id in s.layerOrder)
    && (forall id :: id in s.layers ==>
          && s.layers[id].total == LastTotal(messages, id)
          && s.layers[id].current == LastCurrent(messages, id))
    && (forall id, k: nat :: id in s.layers && LastFor(messages, id, k) ==> s.layers[id].status == messages[k].status)
  }

  lemma TellsOrder(messages: seq<Message>, first: string, s: State, m: Message)
    requires Tells(messages, first, s)
    ensures Apply(s, m).layerOrder == Dedup(Ids(messages + [m]))
    ensures forall id :: id in Apply(s, m).layers <==> id in Apply(s, m).layerOrder
  {
    IdsPush(messages, m);
    if m.Progress? && m.id.Some? {
      DedupPush(Ids(messages), m.id.value);
    }
  }

  lemma IdsPush(messages: seq<Message>, m: Message)
    ensures Ids(messages + [m]) == if m.Progress? && m.id.Some? then Ids(messages) + [m.id.value] else Ids(messages)
  {
    assert (messages + [m])[..|messages|] == messages;
  }

  lemma TellsMessage(messages: seq<Message>, first: string, s: State, m: Message)
    requires Tells(messages, first, s)
    ensures Apply(s, m).message == LastStatus(messages + [m], first)
  {
    assert (messages + [m])[..|messages|] == messages;
  }

  /** A layer nobody has named has no numbers. */
  lemma {:induction false} Unnamed(messages: seq<Message>, id: string)
    requires id !in Ids(messages)
    ensures LastTotal(messages, id) == 0 && LastCurrent(messages, id) == 0
  {
    if messages != [] {
      Unnamed(messages[..|messages| - 1], id);
    }
  }

  lemma TellsNumbers(messages: seq<Message>, first: string, s: State, m: Message, id: string)
    requires Tells(messages, first, s) && id in Apply(s, m).layers
    ensures Apply(s, m).layers[id].total == LastTotal(messages + [m], id)
    ensures Apply(s, m).layers[id].current == LastCurrent(messages + [m], id)
  {
    assert (messages + [m])[..|messages|] == messages;
    if id !in s.layers {
      DedupMember(Ids(messages), id);
      Unnamed(messages, id);
    }
  }

  lemma TellsStatus(messages: seq<Message>, first: string, s: State, m: Message, id: string, k: nat)
    requires Tells(messages, first, s) && id in Apply(s, m).layers && LastFor(messages + [m], id, k)
    ensures Apply(s, m).layers[id].status == (messages + [m])[k].status
  {
    if k < |messages| {
      assert (messages + [m])[|messages|] == m && !Names(m, id);
      assert forall j :: 0 <= j < |messages| ==> (messages + [m])[j] == messages[j];
      assert LastFor(messages, id, k);
    }
  }

  lemma TellsStep(messages: seq<Message>, first: string, s: State, m: Message)
    requires Tells(messages, first, s)
    ensures Tells(messages + [m], first, Apply(s, m))
  {
    TellsMessage(messages, first, s, m);
    TellsOrder(messages, first, s, m);
    forall id | id in Apply(s, m).layers
      ensures Apply(s, m).layers[id].total == LastTotal(messages + [m], id)
      ensures Apply(s, m).layers[id].current == LastCurrent(messages + [m], id)
    {
      TellsNumbers(messages, first, s, m, id);
    }
    forall id, k: nat | id in Apply(s, m).layers && LastFor(messages + [m], id, k)
      ensures Apply(s, m).layers[id].status == (messages + [m])[k].status
    {
      TellsStatus(messages, first, s, m, id, k);
    }
  }

  lemma {:induction false} PullTells(decode: Decoder, before: seq<Message>, first: string, s: State, bytes: Data)
    requires Tells(before, first, s)
    ensures Tells(before + Messages(decode, bytes), first, Pull(decode, s, bytes).0)
    decreases |bytes|
  {
    var end := Find(bytes, [NEWLINE]);
    if end.None? || decode(bytes[..end.value + 1]).Error? {
      assert before + [] == before;
    } else {
      var m, rest := decode(bytes[..end.value + 1]), bytes[end.value + 1..];
      TellsStep(before, first, s, m);
      PullTells(decode, before + [m], first, Apply(s, m), rest);
      assert before + [m] + Messages(decode, rest) == before + ([m] + Messages(decode, rest));
    }
  }

  /** After any stream, however it ended, the job lists and describes its layers as the applied messages do. */
  lemma StreamTells(decode: Decoder, message: string, frames: seq<Frame>)
    ensures Tells(Messages(decode, Stream(frames)), message, Pull(decode, State(message, map[], []), Stream(frames)).0)
  {
    PullTells(decode, [], message, State(message, map[], []), Stream(frames));
    assert [] + Messages(decode, Stream(frames)) == Messages(decode, Stream(frames));
  }

  /** The layer order has no duplicates and lists exactly the layers, after any stream. */
  lemma OrderListsLayers(decode: Decoder, message: string, bytes: Data, i: nat, j: nat)
    ensures var s := Pull(decode, State(message, map[], []), bytes).0;
            && (forall id :: id in s.layers <==> id in s.layerOrder)
            && (i < j < |s.layerOrder| ==> s.layerOrder[i] != s.layerOrder[j])
  {
    PullTells(decode, [], message, State(message, map[], []), bytes);
    var s := Pull(decode, State(message, map[], []), bytes).0;
    assert [] + Messages(decode, bytes) == Messages(decode, bytes);
    if i < j < |s.layerOrder| {
      DedupOrder(Ids(Messages(decode, bytes)), i, j);
    }
  }

  /** Job state and answer of `PullJob.DockerPull`. */
  function After(decode: Decoder, s: State, frames: seq<Frame>): (State, Result<string, Failure>) {
    (Pull(decode, s, Stream(frames)).0, Outcome(Pull(decode, s, Stream(frames)), Broken in frames))
  }

  /** Splitting a frame anywhere, also inside a line, changes neither job nor answer. */
  lemma SplitFrame(decode: Decoder, s: State, before: seq<Frame>, a: Data, b: Data, after: seq<Frame>)
    ensures After(decode, s, before + [Piece(a + b)] + after) == After(decode, s, before + [Piece(a), Piece(b)] + after)
  {
    SplitKeepsBytes(before, a, b, after);
  }

  lemma SplitKeepsBytes(before: seq<Frame>, a: Data, b: Data, after: seq<Frame>)
    ensures Stream(before + [Piece(a + b)] + after) == Stream(before + [Piece(a), Piece(b)] + after)
    ensures Broken in before + [Piece(a + b)] + after <==> Broken in before + [Piece(a), Piece(b)] + after
  {
    var one, two := [Piece(a + b)] + after, [Piece(a), Piece(b)] + after;
    SplitHere(a, b, after);
    assert before + [Piece(a + b)] + after == before + one;
    assert before + [Piece(a), Piece(b)] + after == before + two;
    SameAfter(before, one, two);
  }

  lemma SplitHere(a: Data, b: Data, after: seq<Frame>)
    ensures Stream([Piece(a + b)] + after) == Stream([Piece(a), Piece(b)] + after)
    ensures Broken in [Piece(a + b)] + after <==> Broken in [Piece(a), Piece(b)] + after
  {
    assert [Piece(a), Piece(b)] + after == [Piece(a)] + ([Piece(b)] + after);
    assert a + (b + Stream(after)) == (a + b) + Stream(after);
    StreamCons(a + b, after);
    StreamCons(b, after);
    StreamCons(a, [Piece(b)] + after);
  }

  /** Streams that agree from some frame on, with the same frames before it. */
  lemma {:induction false} SameAfter(before: seq<Frame>, one: seq<Frame>, two: seq<Frame>)
    requires Stream(one) == Stream(two)
    ensures Stream(before + one) == Stream(before + two)
  {
    if before == [] {
      assert before + one == one && before + two == two;
    } else {
      SameAfter(before[1..], one, two);
      assert (before + one)[1..] == before[1..] + one && (before + two)[1..] == before[1..] + two;
    }
  }

  lemma StreamCons(a: Data, frames: seq<Frame>)
    ensures Stream([Piece(a)] + frames) == a + Stream(frames)
  {
    assert ([Piece(a)] + frames)[1..] == frames;
  }
}
