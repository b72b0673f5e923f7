/** The two reply paths over one stream of worker messages: server-sent chunks, and one collected
    response. The incremental decoder is an abstract state transformer used by both. */
module GrpcReplies {
  import opened Options

  const U32_MAX: nat := 0xffff_ffff

  type Reason = string

  /** `finish` is the named finish reason; a reason without a name counts as none. */
  datatype Outputs = Outputs(text: string, tokenIds: seq<nat>, numTokens: nat, finish: Option<Reason>)

  datatype Message = Message(promptTokens: Option<nat>, outputs: Option<Outputs>)

  /** What awaiting the next item of the worker stream yields, while the stream is not closed. */
  datatype Item = Msg(message: Message) | Status(error: string) | TimedOut

  datatype Decoded<+D> = Text(text: string, decoder: D) | DecodeError(error: string)

  /** Feeding token ids and flushing. */
  datatype Codec<!D> = Codec(emit: (D, seq<nat>) -> Decoded<D>, flush: D -> Decoded<D>)

  /** What both paths are set up with. */
  datatype Setup<!D> = Setup(
    codec: Codec<D>, decoder: Option<D>, preferWorkerText: bool, includeUsage: bool,
    stagesOn: bool, promptTokens: nat)

  datatype Read<+D> = Delta(delta: string, finish: Option<Reason>, next: Option<D>) | ReadError(error: string)

  // ---------- the text of one message ----------

  function OutputTextAndFinish<D>(m: Message, decoder: Option<D>, setup: Setup<D>): Read<D> {
    match m.outputs
    case None => Delta("", None, decoder)
    case Some(o) =>
      if setup.preferWorkerText then Delta(o.text, o.finish, decoder)
      else if decoder.None? then Delta(o.text, o.finish, decoder)
      else
        var fed := if o.tokenIds == [] then Text("", decoder.value) else setup.codec.emit(decoder.value, o.tokenIds);
        match fed
        case DecodeError(e) => ReadError("detokenization failed: " + e)
        case Text(t, d) =>
          var flushed := if o.finish.None? then Text("", d) else setup.codec.flush(d);
          match flushed
          case DecodeError(e) => ReadError("detokenization flush failed: " + e)
          case Text(last, d') =>
            Delta(if o.tokenIds == [] then o.text else t + last, o.finish, Some(d'))
  }

  /** The message carries model output: tokens, even without text, or text. */
  predicate HasGeneratedOutput(m: Message, text: string) {
    m.outputs.Some? && (m.outputs.value.numTokens > 0 || m.outputs.value.tokenIds != [] || text != "")
  }

  function SaturatingAdd(a: nat, b: nat): nat {
    if a + b > U32_MAX then U32_MAX else a + b
  }

  // ---------- what both loops carry along ----------

  datatype Carry<+D> = Carry(decoder: Option<D>, prompt: nat, completion: nat)

  function Begin<D>(setup: Setup<D>): Carry<D> {
    Carry(setup.decoder, setup.promptTokens, 0)
  }

  function Counted<D>(c: Carry<D>, m: Message): Carry<D> {
    c.(prompt := if m.promptTokens.Some? then m.promptTokens.value else c.prompt,
       completion := if m.outputs.Some? then SaturatingAdd(c.completion, m.outputs.value.numTokens) else c.completion)
  }

  /** What one readable message says: its text, its finish reason, and whether it carries output. */
  datatype Part = Part(text: string, finish: Option<Reason>, generated: bool)

  /** The item is a message whose output can be read. */
  predicate Readable<D>(setup: Setup<D>, i: Item, c: Carry<D>) {
    i.Msg? && OutputTextAndFinish(i.message, c.decoder, setup).Delta?
  }

  function PartOf<D>(setup: Setup<D>, i: Item, c: Carry<D>): Part
    requires Readable(setup, i, c)
  {
    var Delta(text, finish, _) := OutputTextAndFinish(i.message, c.decoder, setup);
    Part(text, finish, HasGeneratedOutput(i.message, text))
  }

  function Next<D>(setup: Setup<D>, i: Item, c: Carry<D>): Carry<D>
    requires Readable(setup, i, c)
  {
    Counted(c, i.message).(decoder := OutputTextAndFinish(i.message, c.decoder, setup).next)
  }

  // ---------- the collected response ----------

  datatype Reply =
    | Complete(text: string, finish: Reason, prompt: nat, completion: nat)
    | GatewayTimeout
    | BadGateway(error: string)

  function FailedReply<D>(setup: Setup<D>, i: Item, c: Carry<D>): Reply
    requires !Readable(setup, i, c)
  {
    match i
    case TimedOut => GatewayTimeout
    case Status(e) => BadGateway("grpc stream: " + e)
    case Msg(m) => BadGateway(OutputTextAndFinish(m, c.decoder, setup).error)
  }

  /** The collecting loop from a point where `text` and `finish` have been gathered. */
  function CollectFrom<D>(setup: Setup<D>, items: seq<Item>, c: Carry<D>, text: string, finish: Option<Reason>): Reply {
    if items == [] then
      if finish.None? then BadGateway("gRPC stream closed before finish_info")
      else Complete(text, finish.value, c.prompt, c.completion)
    else if !Readable(setup, items[0], c) then FailedReply(setup, items[0], c)
    else
      var part := PartOf(setup, items[0], c);
      CollectFrom(setup, items[1..], Next(setup, items[0], c), text + part.text,
                  if part.finish.Some? then part.finish else finish)
  }

  function Collected<D>(setup: Setup<D>, items: seq<Item>): Reply {
    CollectFrom(setup, items, Begin(setup), "", None)
  }

  // ---------- looking at single items ----------

  /** What is carried along when item `i` comes up; it stands still at an item that cannot be read. */
  function CarryAt<D>(setup: Setup<D>, items: seq<Item>, c: Carry<D>, i: nat): Carry<D>
    requires i <= |items|
  {
    if i == 0 || !Readable(setup, items[0], c) then c
    else CarryAt(setup, items[1..], Next(setup, items[0], c), i - 1)
  }

  predicate ReadableAt<D>(setup: Setup<D>, items: seq<Item>, c: Carry<D>, i: nat)
    requires i < |items|
  {
    Readable(setup, items[i], CarryAt(setup, items, c, i))
  }

  function PartAt<D>(setup: Setup<D>, items: seq<Item>, c: Carry<D>, i: nat): Part
    requires i < |items| && ReadableAt(setup, items, c, i)
  {
    PartOf(setup, items[i], CarryAt(setup, items, c, i))
  }

  /** How many items can be read before the first that cannot. */
  function Reached<D>(setup: Setup<D>, items: seq<Item>, c: Carry<D>): (n: nat)
    ensures n <= |items|
  {
    if items == [] || !Readable(setup, items[0], c) then 0
    else 1 + Reached(setup, items[1..], Next(setup, items[0], c))
  }

  /** Item `i` is a message with output that collecting gets to. */
  predicate OutputAt<D>(setup: Setup<D>, items: seq<Item>, c: Carry<D>, i: nat) {
    i < Reached(setup, items, c) && ReadableAt(setup, items, c, i) && PartAt(setup, items, c, i).generated
  }

  /** Some message the collecting loop gets to carries output: the first such message is signalled. */
  ghost predicate CollectSignals<D>(setup: Setup<D>, items: seq<Item>, c: Carry<D>) {
    exists i :: OutputAt(setup, items, c, i)
  }

  lemma OutputShift<D>(setup: Setup<D>, items: seq<Item>, c: Carry<D>, i: nat)
    requires items != [] && Readable(setup, items[0], c)
    ensures OutputAt(setup, items, c, i + 1) <==> OutputAt(setup, items[1..], Next(setup, items[0], c), i)
  {
  }

  /** The signal comes from the first message or from a later one. */
  lemma SignalShift<D>(setup: Setup<D>, items: seq<Item>, c: Carry<D>)
    ensures items == [] || !Readable(setup, items[0], c) ==> !CollectSignals(setup, items, c)
    ensures items != [] && Readable(setup, items[0], c) ==>
              (CollectSignals(setup, items, c) <==>
               PartOf(setup, items[0], c).generated || CollectSignals(setup, items[1..], Next(setup, items[0], c)))
  {
    if items != [] && Readable(setup, items[0], c) {
      var c' := Next(setup, items[0], c);
      if i: nat :| OutputAt(setup, items, c, i) && i > 0 { OutputShift(setup, items, c, i - 1); }
      if i :| OutputAt(setup, items[1..], c', i) { OutputShift(setup, items, c, i); }
      assert PartOf(setup, items[0], c).generated ==> OutputAt(setup, items, c, 0);
    }
  }

  /** `calls` counts the invocations of the first-output callback. */
  method Collect<D>(setup: Setup<D>, items: seq<Item>) returns (reply: Reply, calls: nat)
    ensures reply == Collected(setup, items)
    ensures calls == if CollectSignals(setup, items, Begin(setup)) then 1 else 0
  {
    calls := 0;
    var firstOutputSeen := false;
    var rest, decoder, text, finish := items, setup.decoder, "", None;
    var prompt: nat, completion: nat := setup.promptTokens, 0;
    while rest != []
      invariant Collected(setup, items) == CollectFrom(setup, rest, Carry(decoder, prompt, completion), text, finish)
      invariant calls == if firstOutputSeen then 1 else 0
      invariant CollectSignals(setup, items, Begin(setup)) <==>
                firstOutputSeen || CollectSignals(setup, rest, Carry(decoder, prompt, completion))
      decreases |rest|
    {
      SignalShift(setup, rest, Carry(decoder, prompt, completion));
      var item := rest[0];
      match item
      case TimedOut => return GatewayTimeout, calls;
      case Status(e) => return BadGateway("grpc stream: " + e), calls;
      case Msg(m) =>
        if m.promptTokens.Some? {
          prompt := m.promptTokens.value;
        }
        match OutputTextAndFinish(m, decoder, setup)
        case ReadError(e) => return BadGateway(e), calls;
        case Delta(delta, reason, next) =>
          if !firstOutputSeen && HasGeneratedOutput(m, delta) {
            firstOutputSeen := true;
            calls := calls + 1;
          }
          text := text + delta;
          decoder := next;
          if m.outputs.Some? {
            completion := SaturatingAdd(completion, m.outputs.value.numTokens);
          }
          if reason.Some? {
            finish := reason;
          }
          rest := rest[1..];
    }
    SignalShift(setup, rest, Carry(decoder, prompt, completion));
    if finish.None? {
      return BadGateway("gRPC stream closed before finish_info"), calls;
    }
    reply := Complete(text, finish.value, prompt, completion);
  }

  // ---------- the streamed chunks ----------

  datatype Chunk =
    | Content(text: string, role: bool, finish: Option<Reason>, generated: bool)
    | Stages
    | Usage(prompt: nat, completion: nat)
    | Done
    | Error(error: string)

  /** `first` until a content chunk went out, `logged` once the stage timings have been taken. */
  datatype Flags = Flags(first: bool, logged: bool)

  function OneIf(b: bool, k: Chunk): seq<Chunk> { if b then [k] else [] }

  /** The message puts out a content chunk. */
  predicate Shows(part: Part, first: bool) {
    part.text != "" || part.finish.Some? || first
  }

  /** The chunks for one message. */
  function ChunksFor<D>(setup: Setup<D>, c: Carry<D>, part: Part, f: Flags): seq<Chunk> {
    OneIf(!f.logged && part.text != "" && setup.stagesOn, Stages)
    + OneIf(Shows(part, f.first), Content(part.text, f.first, part.finish, part.generated))
    + OneIf(part.finish.Some? && setup.includeUsage, Usage(c.prompt, c.completion))
    + OneIf(part.finish.Some?, Done)
  }

  function FailedChunk<D>(setup: Setup<D>, i: Item, c: Carry<D>): Chunk
    requires !Readable(setup, i, c)
  {
    match i
    case TimedOut => Error("gRPC stream exceeded request timeout")
    case Status(e) => Error(e)
    case Msg(m) => Error(OutputTextAndFinish(m, c.decoder, setup).error)
  }

  function Later(f: Flags, part: Part): Flags {
    Flags(false, f.logged || part.text != "")
  }

  /** The chunks of the streaming loop from some point on. */
  function StreamFrom<D>(setup: Setup<D>, items: seq<Item>, c: Carry<D>, f: Flags): seq<Chunk> {
    if items == [] then [Error("gRPC stream closed before finish_info")]
    else if !Readable(setup, items[0], c) then [FailedChunk(setup, items[0], c)]
    else
      var part, c' := PartOf(setup, items[0], c), Next(setup, items[0], c);
      if part.finish.Some? then ChunksFor(setup, c', part, f)
      else ChunksFor(setup, c', part, f) + StreamFrom(setup, items[1..], c', Later(f, part))
  }

  const FRESH := Flags(true, false)

  function Streamed<D>(setup: Setup<D>, items: seq<Item>): seq<Chunk> {
    StreamFrom(setup, items, Begin(setup), FRESH)
  }

  // ---------- the streaming loop ----------

  /** One chunk sent to a receiver that takes `takes` chunks and then goes away. */
  function Push(got: seq<Chunk>, k: Chunk, takes: nat): seq<Chunk> {
    if |got| < takes then got + [k] else got
  }

  /** What that receiver has when `chunks` are sent to it after `got`. */
  function Taken(got: seq<Chunk>, chunks: seq<Chunk>, takes: nat): seq<Chunk>
    decreases |chunks|
  {
    if chunks == [] then got else Taken(Push(got, chunks[0], takes), chunks[1..], takes)
  }

  lemma {:induction false} TakenTwice(got: seq<Chunk>, a: seq<Chunk>, b: seq<Chunk>, takes: nat)
    ensures Taken(got, a + b, takes) == Taken(Taken(got, a, takes), b, takes)
    decreases |a|
  {
    if a == [] {
      assert a + b == b;
    } else {
      assert (a + b)[1..] == a[1..] + b;
      TakenTwice(Push(got, a[0], takes), a[1..], b, takes);
    }
  }

  /** It has the first chunks, as many as it takes. */
  lemma {:induction false} TakenPrefix(got: seq<Chunk>, chunks: seq<Chunk>, takes: nat)
    requires |got| <= takes
    ensures Taken(got, chunks, takes) == if |got + chunks| <= takes then got + chunks else (got + chunks)[..takes]
    decreases |chunks|
  {
    if chunks != [] {
      TakenPrefix(Push(got, chunks[0], takes), chunks[1..], takes);
      assert got + [chunks[0]] + chunks[1..] == got + chunks;
    }
  }

  lemma {:induction false} TakenFull(got: seq<Chunk>, chunks: seq<Chunk>, takes: nat)
    requires |got| >= takes
    ensures Taken(got, chunks, takes) == got
    decreases |chunks|
  {
    if chunks != [] { TakenFull(got, chunks[1..], takes); }
  }

  lemma TakenFour(got: seq<Chunk>, a: seq<Chunk>, b: seq<Chunk>, c: seq<Chunk>, d: seq<Chunk>, takes: nat)
    ensures Taken(got, a + b + c + d, takes) ==
            Taken(Taken(Taken(Taken(got, a, takes), b, takes), c, takes), d, takes)
  {
    TakenTwice(got, a + b + c, d, takes);
    TakenTwice(got, a + b, c, takes);
    TakenTwice(got, a, b, takes);
  }

  /** Sending fails once the receiver is gone. */
  method Send(got: seq<Chunk>, k: Chunk, takes: nat) returns (now: seq<Chunk>, ok: bool)
    ensures now == Taken(got, [k], takes) && (|got| <= takes ==> |now| <= takes)
    ensures ok <==> |got| < takes
    ensures !ok ==> now == got
  {
    ok := |got| < takes;
    now := if ok then got + [k] else got;
  }

  /** Send the chunks of one message; a content chunk that does not get through ends the loop. */
  method SendMessage<D>(setup: Setup<D>, ghost c: Carry<D>, prompt: nat, completion: nat, part: Part, f: Flags,
                        got: seq<Chunk>, takes: nat)
    returns (now: seq<Chunk>, ok: bool)
    requires |got| <= takes && c.prompt == prompt && c.completion == completion
    ensures now == Taken(got, ChunksFor(setup, c, part, f), takes) && |now| <= takes
    ensures !ok ==> |now| == takes
  {
    ghost var stages := OneIf(!f.logged && part.text != "" && setup.stagesOn, Stages);
    ghost var content := OneIf(Shows(part, f.first), Content(part.text, f.first, part.finish, part.generated));
    ghost var usage := OneIf(part.finish.Some? && setup.includeUsage, Usage(prompt, completion));
    ghost var done := OneIf(part.finish.Some?, Done);
    TakenFour(got, stages, content, usage, done, takes);
    now, ok := got, true;
    var through;
    if !f.logged && part.text != "" {
      if setup.stagesOn {
        now, through := Send(now, Stages, takes);
      }
    }
    if part.text != "" || part.finish.Some? || f.first {
      now, ok := Send(now, Content(part.text, f.first, part.finish, part.generated), takes);
      if !ok {
        TakenFull(now, usage, takes);
        TakenFull(now, done, takes);
        return;
      }
    }
    if part.finish.Some? {
      if setup.includeUsage {
        now, through := Send(now, Usage(prompt, completion), takes);
      }
      now, through := Send(now, Done, takes);
    }
  }

  /** One message further, seen from the receiver. */
  lemma AfterMessage<D>(setup: Setup<D>, items: seq<Item>, c: Carry<D>, f: Flags,
                        got: seq<Chunk>, now: seq<Chunk>, takes: nat)
    requires items != [] && Readable(setup, items[0], c)
    requires now == Taken(got, ChunksFor(setup, Next(setup, items[0], c), PartOf(setup, items[0], c), f), takes)
    ensures var part, all := PartOf(setup, items[0], c), Taken(got, StreamFrom(setup, items, c, f), takes);
            && (|now| >= takes || part.finish.Some? ==> all == now)
            && (part.finish.None? ==>
                  all == Taken(now, StreamFrom(setup, items[1..], Next(setup, items[0], c), Later(f, part)), takes))
  {
    var part, c' := PartOf(setup, items[0], c), Next(setup, items[0], c);
    if part.finish.None? {
      var rest := StreamFrom(setup, items[1..], c', Later(f, part));
      TakenTwice(got, ChunksFor(setup, c', part, f), rest, takes);
      if |now| >= takes { TakenFull(now, rest, takes); }
    }
  }

  /** The loop, towards a receiver that takes `takes` chunks and then goes away: it has got exactly
      that many of the streamed chunks, or all of them. */
  method Stream<D>(setup: Setup<D>, items: seq<Item>, takes: nat) returns (got: seq<Chunk>)
    ensures var all := Streamed(setup, items); got == if |all| <= takes then all else all[..takes]
  {
    got := [];
    var rest, decoder := items, setup.decoder;
    var first, firstTokenLogged := true, false;
    var prompt: nat, completion: nat := setup.promptTokens, 0;
    ghost var all := Taken([], Streamed(setup, items), takes);
    TakenPrefix([], Streamed(setup, items), takes);
    assert [] + Streamed(setup, items) == Streamed(setup, items);
    var ok;
    while rest != []
      invariant |got| <= takes
      invariant var now := Carry(decoder, prompt, completion);
                all == Taken(got, StreamFrom(setup, rest, now, Flags(first, firstTokenLogged)), takes)
      decreases |rest|
    {
      ghost var c, f := Carry(decoder, prompt, completion), Flags(first, firstTokenLogged);
      var item := rest[0];
      match item
      case TimedOut =>
        got, ok := Send(got, Error("gRPC stream exceeded request timeout"), takes);
        return;
      case Status(e) =>
        got, ok := Send(got, Error(e), takes);
        return;
      case Msg(m) =>
        if m.promptTokens.Some? {
          prompt := m.promptTokens.value;
        }
        if m.outputs.Some? {
          completion := SaturatingAdd(completion, m.outputs.value.numTokens);
        }
        match OutputTextAndFinish(m, decoder, setup)
        case ReadError(e) =>
          got, ok := Send(got, Error(e), takes);
          return;
        case Delta(text, finish, next) =>
          decoder := next;
          var part := Part(text, finish, HasGeneratedOutput(m, text));
          ghost var before, c' := got, Carry(decoder, prompt, completion);
          assert part == PartOf(setup, item, c) && c' == Next(setup, item, c);
          got, ok := SendMessage(setup, c', prompt, completion, part, Flags(first, firstTokenLogged), got, takes);
          AfterMessage(setup, rest, c, f, before, got, takes);
          if !ok {
            break;
          }
          if finish.Some? {
            return;
          }
          firstTokenLogged := firstTokenLogged || text != "";
          first := false;
          rest := rest[1..];
    }
    got, ok := Send(got, Error("gRPC stream closed before finish_info"), takes);
  }

  // ---------- reading a chunk sequence ----------

  function FlatMap<T>(chunks: seq<Chunk>, f: Chunk -> seq<T>): seq<T> {
    if chunks == [] then [] else f(chunks[0]) + FlatMap(chunks[1..], f)
  }

  lemma {:induction false} FlatMapConcat<T>(a: seq<Chunk>, b: seq<Chunk>, f: Chunk -> seq<T>)
    ensures FlatMap(a + b, f) == FlatMap(a, f) + FlatMap(b, f)
  {
    if a == [] {
      assert a + b == b;
    } else {
      assert (a + b)[1..] == a[1..] + b;
      FlatMapConcat(a[1..], b, f);
    }
  }

  function TextIn(k: Chunk): string { if k.Content? then k.text else "" }

  function RoleIn(k: Chunk): seq<bool> { if k.Content? then [k.role] else [] }

  function FinishIn(k: Chunk): seq<Reason> { if k.Content? && k.finish.Some? then [k.finish.value] else [] }

  function UsageIn(k: Chunk): seq<(nat, nat)> { if k.Usage? then [(k.prompt, k.completion)] else [] }

  function EndIn(k: Chunk): seq<Chunk> { if k.Done? || k.Error? then [k] else [] }

  /** The frame flags handed to the first-output tracking, one per chunk. */
  function FlagIn(k: Chunk): seq<bool> { [k.Content? && k.generated] }

  lemma FlatMapOneIf<T>(b: bool, k: Chunk, f: Chunk -> seq<T>)
    ensures FlatMap(OneIf(b, k), f) == if b then f(k) else []
  {
  }

  /** Reading the chunks of one message. */
  lemma FlatMapMessage<D, T>(setup: Setup<D>, c: Carry<D>, part: Part, f: Flags, g: Chunk -> seq<T>)
    ensures FlatMap(ChunksFor(setup, c, part, f), g) ==
            (if !f.logged && part.text != "" && setup.stagesOn then g(Stages) else [])
            + (if Shows(part, f.first) then g(Content(part.text, f.first, part.finish, part.generated)) else [])
            + (if part.finish.Some? && setup.includeUsage then g(Usage(c.prompt, c.completion)) else [])
            + (if part.finish.Some? then g(Done) else [])
  {
    var b := !f.logged && part.text != "" && setup.stagesOn;
    var content := Content(part.text, f.first, part.finish, part.generated);
    var usage := OneIf(part.finish.Some? && setup.includeUsage, Usage(c.prompt, c.completion));
    FlatMapConcat(OneIf(b, Stages) + OneIf(Shows(part, f.first), content) + usage, OneIf(part.finish.Some?, Done), g);
    FlatMapConcat(OneIf(b, Stages) + OneIf(Shows(part, f.first), content), usage, g);
    FlatMapConcat(OneIf(b, Stages), OneIf(Shows(part, f.first), content), g);
    FlatMapOneIf(b, Stages, g);
    FlatMapOneIf(Shows(part, f.first), content, g);
    FlatMapOneIf(part.finish.Some? && setup.includeUsage, Usage(c.prompt, c.completion), g);
    FlatMapOneIf(part.finish.Some?, Done, g);
  }

  // ---------- the shape of every stream ----------

  /** One end, either done or one error, and it comes last. */
  ghost predicate EndsOnce(chunks: seq<Chunk>) {
    chunks != [] && FlatMap(chunks, EndIn) == [chunks[|chunks| - 1]]
  }

  /** The role is on the first content chunk, if `first`, and on no other. */
  ghost predicate RoleOnce(chunks: seq<Chunk>, first: bool) {
    var roles := FlatMap(chunks, RoleIn);
    forall i :: 0 <= i < |roles| ==> (roles[i] <==> first && i == 0)
  }

  lemma EndsLater(chunks: seq<Chunk>, rest: seq<Chunk>)
    requires FlatMap(chunks, EndIn) == [] && EndsOnce(rest)
    ensures EndsOnce(chunks + rest)
  {
    FlatMapConcat(chunks, rest, EndIn);
  }

  lemma RoleLater(chunks: seq<Chunk>, rest: seq<Chunk>, first: bool)
    requires FlatMap(chunks, RoleIn) == [first] || (FlatMap(chunks, RoleIn) == [] && !first)
    requires RoleOnce(rest, false)
    ensures RoleOnce(chunks + rest, first)
  {
    FlatMapConcat(chunks, rest, RoleIn);
  }

  lemma MessageEnd<D>(setup: Setup<D>, c: Carry<D>, part: Part, f: Flags)
    ensures FlatMap(ChunksFor(setup, c, part, f), EndIn) == if part.finish.Some? then [Done] else []
  {
    FlatMapMessage(setup, c, part, f, EndIn);
  }

  lemma MessageEnds<D>(setup: Setup<D>, c: Carry<D>, part: Part, f: Flags)
    ensures var chunks := ChunksFor(setup, c, part, f);
            if part.finish.Some? then EndsOnce(chunks) else FlatMap(chunks, EndIn) == []
  {
    MessageEnd(setup, c, part, f);
  }

  lemma MessageRole<D>(setup: Setup<D>, c: Carry<D>, part: Part, f: Flags)
    ensures var roles := FlatMap(ChunksFor(setup, c, part, f), RoleIn);
            roles == [f.first] || (roles == [] && !f.first)
  {
    FlatMapMessage(setup, c, part, f, RoleIn);
  }

  lemma {:induction false} StreamEndsOnce<D>(setup: Setup<D>, items: seq<Item>, c: Carry<D>, f: Flags)
    ensures EndsOnce(StreamFrom(setup, items, c, f))
    decreases |items|
  {
    if items != [] && Readable(setup, items[0], c) {
      var part, c' := PartOf(setup, items[0], c), Next(setup, items[0], c);
      MessageEnds(setup, c', part, f);
      if part.finish.None? {
        StreamEndsOnce(setup, items[1..], c', Later(f, part));
        EndsLater(ChunksFor(setup, c', part, f), StreamFrom(setup, items[1..], c', Later(f, part)));
      }
    }
  }

  lemma {:induction false} StreamRoleOnce<D>(setup: Setup<D>, items: seq<Item>, c: Carry<D>, f: Flags)
    ensures RoleOnce(StreamFrom(setup, items, c, f), f.first)
    decreases |items|
  {
    if items != [] && Readable(setup, items[0], c) {
      var part, c' := PartOf(setup, items[0], c), Next(setup, items[0], c);
      MessageRole(setup, c', part, f);
      if part.finish.None? {
        StreamRoleOnce(setup, items[1..], c', Later(f, part));
        RoleLater(ChunksFor(setup, c', part, f), StreamFrom(setup, items[1..], c', Later(f, part)), f.first);
      }
    }
  }

  // ---------- agreement ----------

  /** How many items the streaming loop consumes. */
  function Consumed<D>(setup: Setup<D>, items: seq<Item>, c: Carry<D>): (n: nat)
    ensures n <= |items|
  {
    if items == [] then 0
    else if !Readable(setup, items[0], c) || PartOf(setup, items[0], c).finish.Some? then 1
    else 1 + Consumed(setup, items[1..], Next(setup, items[0], c))
  }

  /** The chunks, after `before`, say the same as the collected response `r`: text, finish reason
      and token counts if they end with done, an error if they end with one. */
  ghost predicate Tells(chunks: seq<Chunk>, includeUsage: bool, before: string, r: Reply) {
    if FlatMap(chunks, EndIn) == [Done] then
      && r.Complete?
      && r.text == before + FlatMap(chunks, TextIn)
      && FlatMap(chunks, FinishIn) == [r.finish]
      && FlatMap(chunks, UsageIn) == (if includeUsage then [(r.prompt, r.completion)] else [])
    else !r.Complete?
  }

  lemma TellsError(e: string, includeUsage: bool, before: string, r: Reply)
    ensures FlatMap([Error(e)], EndIn) == [Error(e)]
    ensures Tells([Error(e)], includeUsage, before, r) <==> !r.Complete?
  {
  }

  /** The response has this text, this reason and, if they are shown, these counts. */
  predicate Says<D>(r: Reply, text: string, finish: Reason, c: Carry<D>, includeUsage: bool) {
    r.Complete? && r.text == text && r.finish == finish
    && (includeUsage ==> r.prompt == c.prompt && r.completion == c.completion)
  }

  lemma MessageText<D>(setup: Setup<D>, c: Carry<D>, part: Part, f: Flags)
    ensures FlatMap(ChunksFor(setup, c, part, f), TextIn) == part.text
  {
    FlatMapMessage(setup, c, part, f, TextIn);
  }

  lemma MessageFinish<D>(setup: Setup<D>, c: Carry<D>, part: Part, f: Flags)
    ensures FlatMap(ChunksFor(setup, c, part, f), FinishIn) == if part.finish.Some? then [part.finish.value] else []
  {
    FlatMapMessage(setup, c, part, f, FinishIn);
  }

  lemma MessageUsage<D>(setup: Setup<D>, c: Carry<D>, part: Part, f: Flags)
    ensures FlatMap(ChunksFor(setup, c, part, f), UsageIn) ==
            if part.finish.Some? && setup.includeUsage then [(c.prompt, c.completion)] else []
  {
    FlatMapMessage(setup, c, part, f, UsageIn);
  }

  /** What is read off the chunks of one message. */
  lemma MessageSays<D>(setup: Setup<D>, c: Carry<D>, part: Part, f: Flags)
    ensures var chunks := ChunksFor(setup, c, part, f);
            && FlatMap(chunks, EndIn) == (if part.finish.Some? then [Done] else [])
            && FlatMap(chunks, TextIn) == part.text
            && FlatMap(chunks, FinishIn) == (if part.finish.Some? then [part.finish.value] else [])
            && FlatMap(chunks, UsageIn) ==
               (if part.finish.Some? && setup.includeUsage then [(c.prompt, c.completion)] else [])
  {
    MessageEnd(setup, c, part, f);
    MessageText(setup, c, part, f);
    MessageFinish(setup, c, part, f);
    MessageUsage(setup, c, part, f);
  }

  lemma TellsLast<D>(setup: Setup<D>, c: Carry<D>, part: Part, f: Flags, before: string, r: Reply)
    requires part.finish.Some?
    ensures FlatMap(ChunksFor(setup, c, part, f), EndIn) == [Done]
    ensures Tells(ChunksFor(setup, c, part, f), setup.includeUsage, before, r) <==>
            Says(r, before + part.text, part.finish.value, c, setup.includeUsage)
  {
    MessageSays(setup, c, part, f);
    var counts := [(c.prompt, c.completion)];
    assert r.Complete? && counts == [(r.prompt, r.completion)] ==> counts[0] == (r.prompt, r.completion);
    assert r.Complete? && [part.finish.value] == [r.finish] ==> [part.finish.value][0] == r.finish;
  }

  lemma TellsPrefixed(chunks: seq<Chunk>, rest: seq<Chunk>, includeUsage: bool, before: string, text: string, r: Reply)
    requires FlatMap(chunks, EndIn) == [] && FlatMap(chunks, TextIn) == text
    requires FlatMap(chunks, FinishIn) == [] && FlatMap(chunks, UsageIn) == []
    ensures FlatMap(chunks + rest, EndIn) == FlatMap(rest, EndIn)
    ensures Tells(chunks + rest, includeUsage, before, r) <==> Tells(rest, includeUsage, before + text, r)
  {
    FlatMapConcat(chunks, rest, EndIn);
    FlatMapConcat(chunks, rest, TextIn);
    FlatMapConcat(chunks, rest, FinishIn);
    FlatMapConcat(chunks, rest, UsageIn);
    assert before + (text + FlatMap(rest, TextIn)) == before + text + FlatMap(rest, TextIn);
  }

  lemma TellsMore<D>(setup: Setup<D>, c: Carry<D>, part: Part, f: Flags, rest: seq<Chunk>, before: string, r: Reply)
    requires part.finish.None?
    ensures var chunks := ChunksFor(setup, c, part, f);
            && FlatMap(chunks + rest, EndIn) == FlatMap(rest, EndIn)
            && (Tells(chunks + rest, setup.includeUsage, before, r) <==>
                Tells(rest, setup.includeUsage, before + part.text, r))
  {
    MessageSays(setup, c, part, f);
    TellsPrefixed(ChunksFor(setup, c, part, f), rest, setup.includeUsage, before, part.text, r);
  }

  /** On the items the stream consumed, collecting gives the same text, finish reason and token
      counts if the stream ended with done, and an error if it ended with one. */
  lemma {:induction false} PathsAgreeFrom<D>(setup: Setup<D>, items: seq<Item>, c: Carry<D>, f: Flags, text: string)
    ensures Tells(StreamFrom(setup, items, c, f), setup.includeUsage, text,
                  CollectFrom(setup, items[..Consumed(setup, items, c)], c, text, None))
    decreases |items|
  {
    var n := Consumed(setup, items, c);
    var r := CollectFrom(setup, items[..n], c, text, None);
    if items == [] {
      TellsError("gRPC stream closed before finish_info", setup.includeUsage, text, r);
    } else if !Readable(setup, items[0], c) {
      TellsError(FailedChunk(setup, items[0], c).error, setup.includeUsage, text, r);
    } else {
      var part, c' := PartOf(setup, items[0], c), Next(setup, items[0], c);
      assert items[..n][0] == items[0] && items[..n][1..] == items[1..][..n - 1];
      if part.finish.Some? {
        TellsLast(setup, c', part, f, text, r);
      } else {
        PathsAgreeFrom(setup, items[1..], c', Later(f, part), text + part.text);
        TellsMore(setup, c', part, f, StreamFrom(setup, items[1..], c', Later(f, part)), text, r);
      }
    }
  }

  /** Every stream is well shaped, and says what collecting the items it consumed says. */
  lemma PathsAgree<D>(setup: Setup<D>, items: seq<Item>)
    ensures EndsOnce(Streamed(setup, items)) && RoleOnce(Streamed(setup, items), true)
    ensures Tells(Streamed(setup, items), setup.includeUsage, "",
                  Collected(setup, items[..Consumed(setup, items, Begin(setup))]))
  {
    StreamEndsOnce(setup, items, Begin(setup), FRESH);
    StreamRoleOnce(setup, items, Begin(setup), FRESH);
    PathsAgreeFrom(setup, items, Begin(setup), FRESH, "");
  }

  // ---------- what comes after the finishing message ----------

  /** The message finishes the reply. */
  predicate Finishes(i: Item) {
    i.Msg? && i.message.outputs.Some? && i.message.outputs.value.finish.Some?
  }

  /** The last reason named by the items, `finish` if they name none. */
  function LastReason(items: seq<Item>, finish: Option<Reason>): Option<Reason> {
    if items == [] then finish
    else LastReason(items[1..], if Finishes(items[0]) then items[0].message.outputs.value.finish else finish)
  }

  /** Item `i` can be read and brings no text. */
  predicate QuietAt<D>(setup: Setup<D>, items: seq<Item>, c: Carry<D>, i: nat)
    requires i < |items|
  {
    ReadableAt(setup, items, c, i) && PartAt(setup, items, c, i).text == ""
  }

  /** The items can all be read, bring no text, and leave the last reason and, if they are shown, the
      counts as they are. */
  ghost predicate Inert<D>(setup: Setup<D>, items: seq<Item>, c: Carry<D>, finish: Reason) {
    && (forall i: nat :: i < |items| ==> QuietAt(setup, items, c, i))
    && LastReason(items, Some(finish)) == Some(finish)
    && var end := CarryAt(setup, items, c, |items|);
       setup.includeUsage ==> end.prompt == c.prompt && end.completion == c.completion
  }

  /** All the items can be read, and their texts add up to `text`. */
  ghost predicate Spell<D>(setup: Setup<D>, items: seq<Item>, c: Carry<D>, text: string) {
    if items == [] then text == ""
    else
      && Readable(setup, items[0], c)
      && var part := PartOf(setup, items[0], c);
      && part.text <= text && Spell(setup, items[1..], Next(setup, items[0], c), text[|part.text|..])
  }

  /** Collecting gives the text of all items, the last reason and the final counts. */
  lemma {:induction false} CollectSays<D>(setup: Setup<D>, items: seq<Item>, c: Carry<D>, before: string,
                                          finish: Reason, more: string)
    ensures var r := CollectFrom(setup, items, c, before, Some(finish));
            r.Complete? && r.text == before + more <==> Spell(setup, items, c, more)
    ensures var r, end := CollectFrom(setup, items, c, before, Some(finish)), CarryAt(setup, items, c, |items|);
            r.Complete? ==>
              && Some(r.finish) == LastReason(items, Some(finish))
              && r.prompt == end.prompt && r.completion == end.completion
    ensures var r := CollectFrom(setup, items, c, before, Some(finish)); r.Complete? ==> before <= r.text
    decreases |items|
  {
    if items != [] && Readable(setup, items[0], c) {
      var part, c' := PartOf(setup, items[0], c), Next(setup, items[0], c);
      var finish' := if part.finish.Some? then part.finish.value else finish;
      assert part.finish.Some? <==> Finishes(items[0]);
      if part.text <= more {
        CollectSays(setup, items[1..], c', before + part.text, finish', more[|part.text|..]);
        assert before + part.text + more[|part.text|..] == before + more;
      } else {
        CollectSays(setup, items[1..], c', before + part.text, finish', "");
        var r := CollectFrom(setup, items, c, before, Some(finish));
        if r.Complete? && r.text == before + more { DropCommon(before, part.text, more); }
      }
    }
  }

  lemma DropCommon(before: string, text: string, more: string)
    requires before + text <= before + more
    ensures text <= more
  {
    assert text == (before + text)[|before|..] && more == (before + more)[|before|..];
    assert forall i :: 0 <= i < |text| ==> text[i] == (before + text)[|before| + i] == more[i];
  }

  lemma {:induction false} SpellNothing<D>(setup: Setup<D>, items: seq<Item>, c: Carry<D>)
    ensures Spell(setup, items, c, "") <==> forall i: nat :: i < |items| ==> QuietAt(setup, items, c, i)
    decreases |items|
  {
    if items != [] {
      assert QuietAt(setup, items, c, 0) <==> Readable(setup, items[0], c) && PartOf(setup, items[0], c).text == "";
      if QuietAt(setup, items, c, 0) {
        var rest, c' := items[1..], Next(setup, items[0], c);
        SpellNothing(setup, rest, c');
        forall i: nat | i < |rest| ensures QuietAt(setup, items, c, i + 1) <==> QuietAt(setup, rest, c', i) {}
        if forall i: nat :: i < |rest| ==> QuietAt(setup, rest, c', i) {
          forall i: nat | i < |items| ensures QuietAt(setup, items, c, i) {
            assert i > 0 ==> QuietAt(setup, rest, c', i - 1);
          }
        }
      }
    }
  }

  /** Collecting on after a finishing message changes nothing exactly if the rest is inert. */
  lemma InertExactly<D>(setup: Setup<D>, items: seq<Item>, c: Carry<D>, text: string, finish: Reason)
    ensures Says(CollectFrom(setup, items, c, text, Some(finish)), text, finish, c, setup.includeUsage) <==>
            Inert(setup, items, c, finish)
  {
    CollectSays(setup, items, c, text, finish, "");
    SpellNothing(setup, items, c);
    assert text + "" == text;
  }

  /** The stream ends with done, and this is where: at a finishing message that can be read. */
  predicate StopsAt<D>(setup: Setup<D>, items: seq<Item>, c: Carry<D>, i: nat) {
    i < |items| && i + 1 == Consumed(setup, items, c) && ReadableAt(setup, items, c, i) && Finishes(items[i])
  }

  /** If the stream stops at a finishing message, what comes after it is inert. */
  ghost predicate RestInert<D>(setup: Setup<D>, items: seq<Item>, c: Carry<D>) {
    forall i: nat :: StopsAt(setup, items, c, i) ==>
      Inert(setup, items[i + 1..], CarryAt(setup, items, c, i + 1), items[i].message.outputs.value.finish.value)
  }

  lemma RestInertShift<D>(setup: Setup<D>, items: seq<Item>, c: Carry<D>)
    requires items != [] && Readable(setup, items[0], c) && PartOf(setup, items[0], c).finish.None?
    ensures RestInert(setup, items, c) <==> RestInert(setup, items[1..], Next(setup, items[0], c))
  {
    var rest, c' := items[1..], Next(setup, items[0], c);
    forall i: nat ensures StopsAt(setup, items, c, i + 1) <==> StopsAt(setup, rest, c', i) {}
    if RestInert(setup, items, c) {
      forall i: nat | StopsAt(setup, rest, c', i)
        ensures Inert(setup, rest[i + 1..], CarryAt(setup, rest, c', i + 1), rest[i].message.outputs.value.finish.value)
      {
        assert StopsAt(setup, items, c, i + 1) && rest[i + 1..] == items[i + 2..];
      }
    }
    if RestInert(setup, rest, c') {
      forall i: nat | StopsAt(setup, items, c, i)
        ensures Inert(setup, items[i + 1..], CarryAt(setup, items, c, i + 1),
                      items[i].message.outputs.value.finish.value)
      {
        assert i > 0 && StopsAt(setup, rest, c', i - 1) && rest[i..] == items[i + 1..];
      }
    }
  }

  lemma {:induction false} AgreeExactlyFrom<D>(setup: Setup<D>, items: seq<Item>, c: Carry<D>, f: Flags, text: string)
    ensures Tells(StreamFrom(setup, items, c, f), setup.includeUsage, text,
                  CollectFrom(setup, items, c, text, None)) <==>
            RestInert(setup, items, c)
    decreases |items|
  {
    var r := CollectFrom(setup, items, c, text, None);
    if items == [] {
      TellsError("gRPC stream closed before finish_info", setup.includeUsage, text, r);
    } else if !Readable(setup, items[0], c) {
      TellsError(FailedChunk(setup, items[0], c).error, setup.includeUsage, text, r);
    } else {
      var part, c' := PartOf(setup, items[0], c), Next(setup, items[0], c);
      if part.finish.Some? {
        TellsLast(setup, c', part, f, text, r);
        InertExactly(setup, items[1..], c', text + part.text, part.finish.value);
        assert StopsAt(setup, items, c, 0) && CarryAt(setup, items, c, 1) == c';
      } else {
        AgreeExactlyFrom(setup, items[1..], c', Later(f, part), text + part.text);
        TellsMore(setup, c', part, f, StreamFrom(setup, items[1..], c', Later(f, part)), text, r);
        RestInertShift(setup, items, c);
      }
    }
  }

  /** Streaming tells the whole collected response exactly if nothing that comes after the message
      the stream stopped at fails, brings text, or changes the reason or the counts shown. */
  lemma AgreeExactly<D>(setup: Setup<D>, items: seq<Item>)
    ensures Tells(Streamed(setup, items), setup.includeUsage, "", Collected(setup, items)) <==>
            RestInert(setup, items, Begin(setup))
  {
    AgreeExactlyFrom(setup, items, Begin(setup), FRESH, "");
  }

  /** A worker sequence for which they differ: text after the finishing message is collected only. */
  lemma LateText() returns (setup: Setup<int>, items: seq<Item>)
    ensures Collected(setup, items) == Complete("ab", "stop", 1, 2)
    ensures FlatMap(Streamed(setup, items), EndIn) == [Done] && FlatMap(Streamed(setup, items), TextIn) == "a"
  {
    setup := Setup(Codec((d, ids) => Text("", d), d => Text("", d)), None, true, false, false, 1);
    var a := Msg(Message(None, Some(Outputs("a", [], 1, Some("stop")))));
    var b := Msg(Message(None, Some(Outputs("b", [], 1, None))));
    items := [a, b];
    assert items[1..] == [b] && items[1..][1..] == [];
    var c0 := Begin(setup);
    var c1 := Next(setup, a, c0);
    assert PartOf(setup, a, c0) == Part("a", Some("stop"), true) && PartOf(setup, b, c1) == Part("b", None, true);
    MessageSays(setup, c1, PartOf(setup, a, c0), FRESH);
    assert "" + "a" == "a" && "a" + "b" == "ab";
    assert Next(setup, b, c1) == Carry(None, 1, 2);
    assert CollectFrom(setup, [b], c1, "a", Some("stop")) ==
           CollectFrom(setup, [], Next(setup, b, c1), "ab", Some("stop"));
  }

  /** For a worker sequence whose only finishing message is the last and that collects without
      error, streaming ends with done and tells exactly the collected response. */
  lemma WholeSequenceAgrees<D>(setup: Setup<D>, items: seq<Item>)
    requires forall i :: 0 <= i < |items| - 1 ==> !Finishes(items[i])
    requires Collected(setup, items).Complete?
    ensures FlatMap(Streamed(setup, items), EndIn) == [Done]
    ensures Tells(Streamed(setup, items), setup.includeUsage, "", Collected(setup, items))
  {
    forall i: nat | StopsAt(setup, items, Begin(setup), i)
      ensures Inert(setup, items[i + 1..], CarryAt(setup, items, Begin(setup), i + 1),
                    items[i].message.outputs.value.finish.value)
    {
      assert items[i + 1..] == [];
    }
    AgreeExactly(setup, items);
  }

  // ---------- when the first output is signalled ----------

  /** Consumed item `i` carries output and puts out a content chunk: it has text, or it finishes, or
      it is the very first. */
  predicate ShowsAt<D>(setup: Setup<D>, items: seq<Item>, c: Carry<D>, first: bool, i: nat) {
    && i < Consumed(setup, items, c) && ReadableAt(setup, items, c, i)
    && var part := PartAt(setup, items, c, i);
       part.generated && (part.text != "" || part.finish.Some? || (first && i == 0))
  }

  ghost predicate ShowsOutput<D>(setup: Setup<D>, items: seq<Item>, c: Carry<D>, first: bool) {
    exists i :: ShowsAt(setup, items, c, first, i)
  }

  lemma ShowsShift<D>(setup: Setup<D>, items: seq<Item>, c: Carry<D>, first: bool)
    requires items != [] && Readable(setup, items[0], c)
    ensures var part := PartOf(setup, items[0], c);
            ShowsOutput(setup, items, c, first) <==>
            || (part.generated && Shows(part, first))
            || (part.finish.None? && ShowsOutput(setup, items[1..], Next(setup, items[0], c), false))
  {
    var part, rest, c' := PartOf(setup, items[0], c), items[1..], Next(setup, items[0], c);
    assert ShowsAt(setup, items, c, first, 0) <==> part.generated && Shows(part, first);
    forall i: nat
      ensures ShowsAt(setup, items, c, first, i + 1) <==> part.finish.None? && ShowsAt(setup, rest, c', false, i)
    {
    }
    if i: nat :| ShowsAt(setup, items, c, first, i) && i > 0 { assert ShowsAt(setup, rest, c', false, i - 1); }
    if i: nat :| ShowsAt(setup, rest, c', false, i) && part.finish.None? {
      assert ShowsAt(setup, items, c, first, i + 1);
    }
  }

  lemma MessageFlags<D>(setup: Setup<D>, c: Carry<D>, part: Part, f: Flags)
    ensures true in FlatMap(ChunksFor(setup, c, part, f), FlagIn) <==> part.generated && Shows(part, f.first)
  {
    FlatMapMessage(setup, c, part, f, FlagIn);
  }

  /** The stream flags a frame exactly when a message with output also shows. */
  lemma {:induction false} StreamFlags<D>(setup: Setup<D>, items: seq<Item>, c: Carry<D>, f: Flags)
    ensures true in FlatMap(StreamFrom(setup, items, c, f), FlagIn) <==> ShowsOutput(setup, items, c, f.first)
    decreases |items|
  {
    if items != [] && Readable(setup, items[0], c) {
      var part, c' := PartOf(setup, items[0], c), Next(setup, items[0], c);
      MessageFlags(setup, c', part, f);
      ShowsShift(setup, items, c, f.first);
      if part.finish.None? {
        StreamFlags(setup, items[1..], c', Later(f, part));
        FlatMapConcat(ChunksFor(setup, c', part, f), StreamFrom(setup, items[1..], c', Later(f, part)), FlagIn);
      }
    }
  }

  /** A flagged frame is never spurious: collecting the same items signals too. */
  lemma {:induction false} FlagImpliesSignal<D>(setup: Setup<D>, items: seq<Item>, c: Carry<D>, first: bool)
    ensures ShowsOutput(setup, items, c, first) ==> CollectSignals(setup, items[..Consumed(setup, items, c)], c)
    decreases |items|
  {
    var n := Consumed(setup, items, c);
    if items != [] && Readable(setup, items[0], c) {
      assert items[..n][0] == items[0] && items[..n][1..] == items[1..][..n - 1];
      ShowsShift(setup, items, c, first);
      SignalShift(setup, items[..n], c);
      FlagImpliesSignal(setup, items[1..], Next(setup, items[0], c), false);
    }
  }

  /** The two signals agree exactly if output among the consumed items, where there is any, also shows. */
  lemma SignalsAgreeExactly<D>(setup: Setup<D>, items: seq<Item>)
    ensures var c := Begin(setup);
            var signalled := CollectSignals(setup, items[..Consumed(setup, items, c)], c);
            (true in FlatMap(Streamed(setup, items), FlagIn) <==> signalled) <==>
            (signalled ==> ShowsOutput(setup, items, c, true))
  {
    StreamFlags(setup, items, Begin(setup), FRESH);
    FlagImpliesSignal(setup, items, Begin(setup), true);
  }

  /** They can differ: tokens that decode to nothing are signalled when collecting, while a stream of
      the same messages, ending with done, flags no frame. */
  lemma SilentTokens() returns (setup: Setup<int>, items: seq<Item>)
    ensures CollectSignals(setup, items, Begin(setup)) && Collected(setup, items).Complete?
    ensures Consumed(setup, items, Begin(setup)) == |items|
    ensures true !in FlatMap(Streamed(setup, items), FlagIn)
  {
    var silent := (d: int, ids: seq<nat>) => Text("", d);
    setup := Setup(Codec(silent, d => Text("", d)), Some(0), false, false, false, 1);
    var prompt := Msg(Message(Some(1), None));
    var token := Msg(Message(None, Some(Outputs("", [7], 1, None))));
    var finish := Msg(Message(None, Some(Outputs("", [], 0, Some("stop")))));
    items := [prompt, token, finish];
    assert items[1..] == [token, finish] && items[1..][1..] == [finish] && items[1..][1..][1..] == [];
    var c0 := Begin(setup);
    var c1 := Next(setup, prompt, c0);
    var c2 := Next(setup, token, c1);
    assert Consumed(setup, [finish], c2) == 1 && Consumed(setup, [token, finish], c1) == 2;
    assert CollectFrom(setup, [finish], c2, "", None).Complete?;
    assert CollectFrom(setup, [token, finish], c1, "", None).Complete?;
    StreamFlags(setup, items, c0, FRESH);
    ShowsShift(setup, items, c0, true);
    ShowsShift(setup, [token, finish], c1, false);
    ShowsShift(setup, [finish], c2, false);
    SignalShift(setup, items, c0);
    SignalShift(setup, [token, finish], c1);
  }
}
