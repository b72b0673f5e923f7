/** What gRPC replies say: which text, which counts and which failure, read off the worker messages. */
module GrpcTexts {
  import opened Options
  import opened GrpcReplies

  // ---------- which text a reply has ----------

  /** What the item itself says, empty where it says nothing. */
  function WorkerText(i: Item): string {
    if i.Msg? && i.message.outputs.Some? then i.message.outputs.value.text else ""
  }

  function Ids(i: Item): seq<nat> { if i.Msg? && i.message.outputs.Some? then i.message.outputs.value.tokenIds else [] }

  function Tokens(i: Item): nat { if i.Msg? && i.message.outputs.Some? then i.message.outputs.value.numTokens else 0 }

  function WorkerTexts(items: seq<Item>): string {
    if items == [] then "" else WorkerText(items[0]) + WorkerTexts(items[1..])
  }

  /** A message without token ids contributes its own text, decoder or not. */
  lemma OwnText<D>(setup: Setup<D>, i: Item, c: Carry<D>)
    requires Readable(setup, i, c) && (Ids(i) == [] || setup.preferWorkerText || c.decoder.None?)
    ensures PartOf(setup, i, c).text == WorkerText(i)
  {
  }

  lemma {:induction false} WorkerTextFrom<D>(setup: Setup<D>, items: seq<Item>, c: Carry<D>, text: string,
                                             finish: Option<Reason>)
    requires setup.preferWorkerText || c.decoder.None?
    requires CollectFrom(setup, items, c, text, finish).Complete?
    ensures CollectFrom(setup, items, c, text, finish).text == text + WorkerTexts(items)
    decreases |items|
  {
    if items == [] {
      assert text + "" == text;
    } else {
      var part := PartOf(setup, items[0], c);
      OwnText(setup, items[0], c);
      WorkerTextFrom(setup, items[1..], Next(setup, items[0], c), text + part.text,
                     if part.finish.Some? then part.finish else finish);
      assert text + part.text + WorkerTexts(items[1..]) == text + (part.text + WorkerTexts(items[1..]));
    }
  }

  /** Where the worker's text is preferred, or there is no decoder, a complete reply has the texts of all
      messages. */
  lemma WorkerTextReply<D>(setup: Setup<D>, items: seq<Item>)
    requires (setup.preferWorkerText || setup.decoder.None?) && Collected(setup, items).Complete?
    ensures Collected(setup, items).text == WorkerTexts(items)
  {
    WorkerTextFrom(setup, items, Begin(setup), "", None);
    assert "" + WorkerTexts(items) == WorkerTexts(items);
  }

  // ---------- with a decoder ----------

  /** What the decoder emits for some batches of ids, and where it then stands. */
  function Feed<D>(codec: Codec<D>, d: D, batches: seq<seq<nat>>): Decoded<D> {
    if batches == [] then Text("", d)
    else match Feed(codec, d, batches[..|batches| - 1])
      case DecodeError(e) => DecodeError(e)
      case Text(text, d') =>
        match codec.emit(d', batches[|batches| - 1])
        case DecodeError(e) => DecodeError(e)
        case Text(more, d'') => Text(text + more, d'')
  }

  lemma FeedMore<D>(codec: Codec<D>, d: D, batches: seq<seq<nat>>, ids: seq<nat>)
    requires Feed(codec, d, batches).Text? && codec.emit(Feed(codec, d, batches).decoder, ids).Text?
    ensures var fed := Feed(codec, d, batches);
            var more := codec.emit(fed.decoder, ids);
            Feed(codec, d, batches + [ids]) == Text(fed.text + more.text, more.decoder)
  {
    assert (batches + [ids])[..|batches|] == batches;
  }

  /** The token ids of the items, message by message. */
  function Batches(items: seq<Item>): seq<seq<nat>> {
    if items == [] then [] else (if Ids(items[0]) == [] then [] else [Ids(items[0])]) + Batches(items[1..])
  }

  function Flat(batches: seq<seq<nat>>): seq<nat> {
    if batches == [] then [] else batches[0] + Flat(batches[1..])
  }

  /** Nothing finishes before the last item, and before it all outputs carry token ids. */
  ghost predicate IdsToTheEnd(items: seq<Item>) {
    forall i :: 0 <= i < |items| - 1 ==>
      !Finishes(items[i]) && (items[i].Msg? && items[i].message.outputs.Some? ==> Ids(items[i]) != [])
  }

  /** The text of the last item: the decoder's tail if it carries ids, else its own. */
  function Ending(last: Item, tail: string): string {
    if Ids(last) != [] then tail else WorkerText(last)
  }

  ghost predicate DecodedAs<D>(codec: Codec<D>, d: D, batches: seq<seq<nat>>, last: Item, text: string) {
    var fed := Feed(codec, d, batches);
    && fed.Text? && codec.flush(fed.decoder).Text?
    && text == fed.text + Ending(last, codec.flush(fed.decoder).text)
  }

  /** A message that finishes, read after `batches` have been fed. */
  lemma LastDecoded<D>(setup: Setup<D>, i: Item, c: Carry<D>, d: D, batches: seq<seq<nat>>, text: string)
    requires !setup.preferWorkerText && c.decoder.Some? && Feed(setup.codec, d, batches) == Text(text, c.decoder.value)
    requires Readable(setup, i, c) && Finishes(i)
    ensures DecodedAs(setup.codec, d, batches + Batches([i]), i, text + PartOf(setup, i, c).text)
  {
    var part := PartOf(setup, i, c);
    if Ids(i) == [] {
      assert Batches([i]) == [] && batches + [] == batches;
    } else {
      assert Batches([i]) == [Ids(i)];
      FeedMore(setup.codec, d, batches, Ids(i));
      var more := setup.codec.emit(c.decoder.value, Ids(i));
      var tail := setup.codec.flush(more.decoder);
      assert part.text == more.text + tail.text;
      assert text + (more.text + tail.text) == text + more.text + tail.text;
    }
  }

  /** A message that does not finish, with token ids or without outputs. */
  lemma MidDecoded<D>(setup: Setup<D>, i: Item, c: Carry<D>, d: D, batches: seq<seq<nat>>, text: string)
    requires !setup.preferWorkerText && c.decoder.Some? && Feed(setup.codec, d, batches) == Text(text, c.decoder.value)
    requires Readable(setup, i, c) && !Finishes(i) && (i.message.outputs.Some? ==> Ids(i) != [])
    ensures var next, part := Next(setup, i, c), PartOf(setup, i, c);
            && next.decoder.Some? && part.finish.None?
            && Feed(setup.codec, d, batches + Batches([i])) == Text(text + part.text, next.decoder.value)
  {
    var part := PartOf(setup, i, c);
    if i.message.outputs.None? {
      assert Batches([i]) == [] && batches + [] == batches && text + "" == text;
    } else {
      assert Batches([i]) == [Ids(i)];
      FeedMore(setup.codec, d, batches, Ids(i));
      assert part.text == setup.codec.emit(c.decoder.value, Ids(i)).text + "";
    }
  }

  lemma BatchesOfOne(i: Item)
    ensures Batches([i]) == if Ids(i) == [] then [] else [Ids(i)]
  {
    assert [i][1..] == [];
  }

  lemma Regroup(a: seq<seq<nat>>, b: seq<seq<nat>>, c: seq<seq<nat>>)
    ensures a + (b + c) == (a + b) + c
  {
  }

  lemma BatchesSplit(items: seq<Item>, batches: seq<seq<nat>>)
    requires items != []
    ensures batches + Batches(items) == (batches + Batches([items[0]])) + Batches(items[1..])
  {
    BatchesOfOne(items[0]);
    Regroup(batches, Batches([items[0]]), Batches(items[1..]));
  }

  lemma {:induction false} DecodedFrom<D>(setup: Setup<D>, items: seq<Item>, c: Carry<D>, d: D,
                                          batches: seq<seq<nat>>, text: string)
    requires !setup.preferWorkerText && c.decoder.Some? && Feed(setup.codec, d, batches) == Text(text, c.decoder.value)
    requires IdsToTheEnd(items) && CollectFrom(setup, items, c, text, None).Complete?
    ensures items != []
    ensures DecodedAs(setup.codec, d, batches + Batches(items), items[|items| - 1],
                      CollectFrom(setup, items, c, text, None).text)
    decreases |items|
  {
    var rest := items[1..];
    BatchesSplit(items, batches);
    if rest == [] {
      assert items == [items[0]];
      assert Finishes(items[0]) <==> PartOf(setup, items[0], c).finish.Some?;
      LastDecoded(setup, items[0], c, d, batches, text);
    } else {
      assert !Finishes(items[0]);
      assert forall i :: 0 <= i < |rest| ==> rest[i] == items[i + 1];
      MidDecoded(setup, items[0], c, d, batches, text);
      DecodedFrom(setup, rest, Next(setup, items[0], c), d, batches + Batches([items[0]]),
                  text + PartOf(setup, items[0], c).text);
    }
  }

  /** With a decoder, where only the last message finishes and the outputs before it carry token ids: the
      text is all the decoder emitted, followed by what it held back, unless the last message has no
      token ids, whose own text then takes that place. */
  lemma DecoderReply<D>(setup: Setup<D>, items: seq<Item>, d: D)
    requires !setup.preferWorkerText && setup.decoder == Some(d)
    requires IdsToTheEnd(items) && Collected(setup, items).Complete?
    ensures items != []
    ensures DecodedAs(setup.codec, d, Batches(items), items[|items| - 1], Collected(setup, items).text)
  {
    DecodedFrom(setup, items, Begin(setup), d, [], "");
    assert [] + Batches(items) == Batches(items);
  }

  /** Whatever was emitted, followed by what is flushed, is the decoding of the ids fed. */
  ghost predicate Lossless<D>(codec: Codec<D>, d: D, decode: seq<nat> -> string) {
    forall batches: seq<seq<nat>> {:trigger Feed(codec, d, batches)} ::
      Feed(codec, d, batches).Text? && codec.flush(Feed(codec, d, batches).decoder).Text? ==>
        Feed(codec, d, batches).text + codec.flush(Feed(codec, d, batches).decoder).text == decode(Flat(batches))
  }

  /** With a lossless decoder the reply is the decoding of all ids exactly if the last message carries
      ids, or its own text happens to be what the decoder held back. */
  lemma DecodedExactly<D>(setup: Setup<D>, items: seq<Item>, d: D, decode: seq<nat> -> string)
    requires !setup.preferWorkerText && setup.decoder == Some(d) && Lossless(setup.codec, d, decode)
    requires IdsToTheEnd(items) && Collected(setup, items).Complete?
    ensures items != [] && Feed(setup.codec, d, Batches(items)).Text?
    ensures var last, held := items[|items| - 1], setup.codec.flush(Feed(setup.codec, d, Batches(items)).decoder);
            && held.Text?
            && (Collected(setup, items).text == decode(Flat(Batches(items))) <==>
                Ids(last) != [] || WorkerText(last) == held.text)
  {
    DecoderReply(setup, items, d);
    var fed := Feed(setup.codec, d, Batches(items));
    SameTail(fed.text, Ending(items[|items| - 1], setup.codec.flush(fed.decoder).text),
             setup.codec.flush(fed.decoder).text);
  }

  lemma SameTail(a: string, b: string, c: string)
    ensures a + b == a + c <==> b == c
  {
    assert (a + b)[|a|..] == b && (a + c)[|a|..] == c;
  }

  /** Streaming such a sequence shows the same text. */
  lemma StreamedText<D>(setup: Setup<D>, items: seq<Item>)
    requires forall i :: 0 <= i < |items| - 1 ==> !Finishes(items[i])
    requires Collected(setup, items).Complete?
    ensures FlatMap(Streamed(setup, items), TextIn) == Collected(setup, items).text
  {
    WholeSequenceAgrees(setup, items);
    assert "" + FlatMap(Streamed(setup, items), TextIn) == FlatMap(Streamed(setup, items), TextIn);
  }

  function Xs(n: nat): string { seq(n, _ => 'x') }

  /** A decoder that writes an x per id and holds the last batch back until it is flushed. */
  function HoldBack(): Codec<string> {
    Codec((d, ids: seq<nat>) => Text(d, Xs(|ids|)), d => Text(d, ""))
  }

  lemma {:induction false} FlatMore(batches: seq<seq<nat>>, ids: seq<nat>)
    ensures Flat(batches + [ids]) == Flat(batches) + ids
  {
    if batches == [] {
      assert [ids][1..] == [];
    } else {
      assert (batches + [ids])[1..] == batches[1..] + [ids];
      FlatMore(batches[1..], ids);
    }
  }

  lemma {:induction false} HoldBackFeeds(batches: seq<seq<nat>>)
    ensures var fed := Feed(HoldBack(), "", batches);
            fed.Text? && fed.text + fed.decoder == Xs(|Flat(batches)|)
  {
    if batches != [] {
      var front, last := batches[..|batches| - 1], batches[|batches| - 1];
      HoldBackFeeds(front);
      assert batches == front + [last];
      FlatMore(front, last);
      assert Xs(|Flat(front)|) + Xs(|last|) == Xs(|Flat(front)| + |last|);
    }
  }

  lemma HoldBackLossless()
    ensures Lossless(HoldBack(), "", ids => Xs(|ids|))
  {
    forall batches: seq<seq<nat>> ensures
      var fed := Feed(HoldBack(), "", batches);
      fed.Text? && fed.text + HoldBack().flush(fed.decoder).text == Xs(|Flat(batches)|)
    {
      HoldBackFeeds(batches);
    }
  }

  /** The tail can be lost even so: the decoder holds something back, and the finishing message has no
      ids. */
  lemma DroppedTail() returns (setup: Setup<string>, items: seq<Item>)
    ensures !setup.preferWorkerText && setup.decoder == Some("") && Lossless(setup.codec, "", ids => Xs(|ids|))
    ensures IdsToTheEnd(items) && Collected(setup, items) == Complete("", "stop", 1, 1)
    ensures Flat(Batches(items)) == [7] && Xs(1) == "x"
  {
    HoldBackLossless();
    setup := Setup(HoldBack(), Some(""), false, false, false, 1);
    var token := Msg(Message(None, Some(Outputs("", [7], 1, None))));
    var finish := Msg(Message(None, Some(Outputs("", [], 0, Some("stop")))));
    items := [token, finish];
    assert items[1..] == [finish] && items[1..][1..] == [];
    var c1 := Next(setup, token, Begin(setup));
    assert PartOf(setup, token, Begin(setup)).text == "" && c1 == Carry(Some(Xs(1)), 1, 1);
    assert PartOf(setup, finish, c1).text == "" && Next(setup, finish, c1) == Carry(Some(""), 1, 1);
    assert CollectFrom(setup, [finish], c1, "", None) == Complete("", "stop", 1, 1);
    assert Batches([finish]) == [] && Batches(items) == [[7]] && [[7]][1..] == [];
  }

  // ---------- counts, failures, flags ----------

  function TotalTokens(items: seq<Item>): nat {
    if items == [] then 0 else Tokens(items[0]) + TotalTokens(items[1..])
  }

  /** The prompt size last named, `prompt` if none is. */
  function LastPrompt(items: seq<Item>, prompt: nat): nat {
    if items == [] then prompt
    else LastPrompt(items[1..], if items[0].Msg? && items[0].message.promptTokens.Some?
                                then items[0].message.promptTokens.value else prompt)
  }

  function Capped(n: nat): nat { if n > U32_MAX then U32_MAX else n }

  lemma {:induction false} CountsFrom<D>(setup: Setup<D>, items: seq<Item>, c: Carry<D>, text: string,
                                         finish: Option<Reason>)
    requires CollectFrom(setup, items, c, text, finish).Complete? && c.completion <= U32_MAX
    ensures var r := CollectFrom(setup, items, c, text, finish);
            r.prompt == LastPrompt(items, c.prompt) && r.completion == Capped(c.completion + TotalTokens(items))
    decreases |items|
  {
    if items != [] {
      var part := PartOf(setup, items[0], c);
      CountsFrom(setup, items[1..], Next(setup, items[0], c), text + part.text,
                 if part.finish.Some? then part.finish else finish);
    }
  }

  /** A complete reply counts all tokens, up to the 32-bit limit, and has the prompt size last named. */
  lemma CountsReply<D>(setup: Setup<D>, items: seq<Item>)
    requires Collected(setup, items).Complete?
    ensures var r := Collected(setup, items);
            r.prompt == LastPrompt(items, setup.promptTokens) && r.completion == Capped(TotalTokens(items))
  {
    CountsFrom(setup, items, Begin(setup), "", None);
  }

  /** The first item that cannot be read decides the failure. */
  ghost predicate FailsAs<D>(setup: Setup<D>, items: seq<Item>, c: Carry<D>, finish: Option<Reason>, r: Reply) {
    var n := Reached(setup, items, c);
    if n == |items| then
      if LastReason(items, finish).Some? then r.Complete? && Some(r.finish) == LastReason(items, finish)
      else r == BadGateway("gRPC stream closed before finish_info")
    else match items[n]
      case TimedOut => r == GatewayTimeout
      case Status(e) => r == BadGateway("grpc stream: " + e)
      case Msg(_) => r.BadGateway?
  }

  lemma {:induction false} FailsFrom<D>(setup: Setup<D>, items: seq<Item>, c: Carry<D>, text: string,
                                        finish: Option<Reason>)
    ensures FailsAs(setup, items, c, finish, CollectFrom(setup, items, c, text, finish))
    decreases |items|
  {
    if items != [] && Readable(setup, items[0], c) {
      var part := PartOf(setup, items[0], c);
      var finish' := if part.finish.Some? then part.finish else finish;
      assert part.finish.Some? <==> Finishes(items[0]);
      FailsFrom(setup, items[1..], Next(setup, items[0], c), text + part.text, finish');
      var n := Reached(setup, items[1..], Next(setup, items[0], c));
      assert n < |items[1..]| ==> items[1..][n] == items[n + 1];
    }
  }

  /** A reply is complete exactly if all items can be read and some message named a reason; else the
      first item that cannot be read decides: a timeout is a gateway timeout, the rest bad gateways. */
  lemma ReplyKind<D>(setup: Setup<D>, items: seq<Item>)
    ensures FailsAs(setup, items, Begin(setup), None, Collected(setup, items))
  {
    FailsFrom(setup, items, Begin(setup), "", None);
  }

  /** A message without the output mark brings no text, no ids and no tokens, and one with it does. */
  lemma OutputMeans<D>(setup: Setup<D>, i: Item, c: Carry<D>)
    requires Readable(setup, i, c)
    ensures !PartOf(setup, i, c).generated <==>
            PartOf(setup, i, c).text == "" && Ids(i) == [] && Tokens(i) == 0
  {
  }

  function StageIn(k: Chunk): seq<Chunk> { if k.Stages? then [k] else [] }

  lemma MessageStage<D>(setup: Setup<D>, c: Carry<D>, part: Part, f: Flags)
    ensures FlatMap(ChunksFor(setup, c, part, f), StageIn) ==
            if !f.logged && part.text != "" && setup.stagesOn then [Stages] else []
  {
    FlatMapMessage(setup, c, part, f, StageIn);
  }

  /** The stage timings are shown once if they are wanted and there is any text, else never. */
  lemma {:induction false} StagesOnce<D>(setup: Setup<D>, items: seq<Item>, c: Carry<D>, f: Flags)
    ensures FlatMap(StreamFrom(setup, items, c, f), StageIn) ==
            if setup.stagesOn && !f.logged && FlatMap(StreamFrom(setup, items, c, f), TextIn) != ""
            then [Stages] else []
    decreases |items|
  {
    if items != [] && Readable(setup, items[0], c) {
      var part, c' := PartOf(setup, items[0], c), Next(setup, items[0], c);
      MessageStage(setup, c', part, f);
      MessageText(setup, c', part, f);
      if part.finish.None? {
        var rest := StreamFrom(setup, items[1..], c', Later(f, part));
        StagesOnce(setup, items[1..], c', Later(f, part));
        FlatMapConcat(ChunksFor(setup, c', part, f), rest, StageIn);
        FlatMapConcat(ChunksFor(setup, c', part, f), rest, TextIn);
      }
    }
  }

  /** What the last chunk of a stream is. */
  ghost predicate StopsWith<D>(setup: Setup<D>, items: seq<Item>, c: Carry<D>, k: Chunk) {
    var n := Reached(setup, items, c);
    if exists i: nat :: i < n && Finishes(items[i]) then k == Done
    else if n == |items| then k == Error("gRPC stream closed before finish_info")
    else match items[n]
      case TimedOut => k == Error("gRPC stream exceeded request timeout")
      case Status(e) => k == Error(e)
      case Msg(_) => k.Error?
  }

  lemma StopsShift<D>(setup: Setup<D>, items: seq<Item>, c: Carry<D>, k: Chunk)
    requires items != [] && Readable(setup, items[0], c) && !Finishes(items[0])
    ensures StopsWith(setup, items, c, k) <==> StopsWith(setup, items[1..], Next(setup, items[0], c), k)
  {
    var rest, c' := items[1..], Next(setup, items[0], c);
    var n := Reached(setup, rest, c');
    assert forall i: nat :: i < |rest| ==> rest[i] == items[i + 1];
    if i: nat :| i < n + 1 && Finishes(items[i]) { assert i > 0 && Finishes(rest[i - 1]); }
    if i: nat :| i < n && Finishes(rest[i]) { assert Finishes(items[i + 1]); }
  }

  lemma StopsFailed<D>(setup: Setup<D>, items: seq<Item>, c: Carry<D>)
    requires items == [] || !Readable(setup, items[0], c)
    ensures StopsWith(setup, items, c, EndOf(setup, items, c))
  {
    assert Reached(setup, items, c) == 0;
  }

  lemma StopsDone<D>(setup: Setup<D>, items: seq<Item>, c: Carry<D>)
    requires items != [] && Readable(setup, items[0], c) && Finishes(items[0])
    ensures StopsWith(setup, items, c, Done)
  {
    assert 0 < Reached(setup, items, c);
  }

  /** The end of a stream, item by item. */
  function EndOf<D>(setup: Setup<D>, items: seq<Item>, c: Carry<D>): Chunk {
    if items == [] then Error("gRPC stream closed before finish_info")
    else if !Readable(setup, items[0], c) then FailedChunk(setup, items[0], c)
    else if Finishes(items[0]) then Done
    else EndOf(setup, items[1..], Next(setup, items[0], c))
  }

  lemma {:induction false} EndStops<D>(setup: Setup<D>, items: seq<Item>, c: Carry<D>)
    ensures StopsWith(setup, items, c, EndOf(setup, items, c))
    decreases |items|
  {
    if items == [] || !Readable(setup, items[0], c) {
      StopsFailed(setup, items, c);
    } else if Finishes(items[0]) {
      StopsDone(setup, items, c);
    } else {
      EndStops(setup, items[1..], Next(setup, items[0], c));
      StopsShift(setup, items, c, EndOf(setup, items, c));
    }
  }

  lemma MessageLast<D>(setup: Setup<D>, c: Carry<D>, part: Part, f: Flags)
    requires part.finish.Some?
    ensures var chunks := ChunksFor(setup, c, part, f); chunks != [] && chunks[|chunks| - 1] == Done
  {
  }

  lemma {:induction false} StreamEnd<D>(setup: Setup<D>, items: seq<Item>, c: Carry<D>, f: Flags)
    ensures var chunks := StreamFrom(setup, items, c, f);
            chunks != [] && chunks[|chunks| - 1] == EndOf(setup, items, c)
    decreases |items|
  {
    if items != [] && Readable(setup, items[0], c) {
      var part, c' := PartOf(setup, items[0], c), Next(setup, items[0], c);
      if part.finish.Some? {
        MessageLast(setup, c', part, f);
      } else {
        StreamEnd(setup, items[1..], c', Later(f, part));
      }
    }
  }

  /** A stream ends with done exactly if a finishing message comes before anything unreadable; else with
      the error of the first unreadable item, or of the early end. */
  lemma StreamStops<D>(setup: Setup<D>, items: seq<Item>, c: Carry<D>, f: Flags)
    ensures var chunks := StreamFrom(setup, items, c, f);
            chunks != [] && StopsWith(setup, items, c, chunks[|chunks| - 1])
  {
    StreamEnd(setup, items, c, f);
    EndStops(setup, items, c);
  }
}
