/** The two-half buffer between the thread that reads the DMA device and getWords (src/daqd/PFP_KX7.cpp).
    The pointers are two bits each; both threads wait on condition variables and signal after giving the
    mutex back. Each step is what one thread does in one critical section, one read of the device, or the
    transfer of one word to the caller. */
module DoubleBuffer {
  import opened Options
  import opened Sequences
  import opened ByteWords
  import opened WrapRing

  /** bufferSetThreadRoutine: testing for full, asleep on bufferSetCondConsumed, reading a half of which
      done words are there, about to advance the write pointer, about to signal. */
  datatype Producer = Test | Asleep | Read(half: nat, done: nat) | Publish(half: nat) | Signal

  /** getWords: not called, at the loop, asleep on bufferSetCondFilled, about to advance the read pointer
      of an exhausted half, about to signal. */
  datatype Consumer = Idle | Loop | Waiting | Advance | Wake

  /** blocks, freed, dma, wants and returned are history: the halves filled so far, how many of them were
      given back, the words read from the device, and the counts and results of the getWords calls. */
  datatype State = State(
    size: nat, wr: nat, rd: nat, halves: seq<seq<Word>>, producer: Producer, consumer: Consumer,
    current: Option<nat>, consumed: nat, want: nat, got: seq<Word>,
    blocks: seq<seq<Word>>, freed: nat, dma: seq<Word>, wants: seq<nat>, returned: seq<seq<Word>>)

  datatype Move =
    | Produce(words: seq<Word>) // what the read returns, when the producer is reading
    | Consume
    | Call(count: nat)
    | SpuriousProducer
    | SpuriousConsumer

  predicate Shape(s: State) {
    && s.size > 0 && s.wr < 4 && s.rd < 4
    && |s.halves| == 2 && |s.halves[0]| == |s.halves[1]| == s.size
    && (s.producer.Read? ==> s.producer.half < 2 && s.producer.done <= s.size)
    && (s.producer.Publish? ==> s.producer.half < 2)
    && (s.current.Some? ==> s.current.value < 2 && s.consumed <= s.size)
  }

  predicate Enabled(s: State, m: Move) {
    && Shape(s)
    && match m
       case Produce(words) => s.producer != Asleep && |words| <= Asked(s)
       case Consume => s.consumer != Idle && s.consumer != Waiting
       case Call(_) => s.consumer == Idle
       case SpuriousProducer => s.producer == Asleep
       case SpuriousConsumer => s.consumer == Waiting
  }

  /** How many words the producer asks the device for, if it does. */
  function Asked(s: State): nat
    requires Shape(s)
  {
    if s.producer.Read? then s.size - s.producer.done else 0
  }

  function Step(s: State, m: Move): State
    requires Enabled(s, m)
  {
    match m
    case Produce(words) => ProducerStep(s, words)
    case Consume => ConsumerStep(s)
    case Call(count) => s.(consumer := Loop, want := count, got := [])
    case SpuriousProducer => s.(producer := Test)
    case SpuriousConsumer => s.(consumer := Loop)
  }

  /** The read at PFP_KX7.cpp:292 always stores at the beginning of the half. */
  function ProducerStep(s: State, words: seq<Word>): State
    requires Shape(s) && s.producer != Asleep && |words| <= Asked(s)
  {
    match s.producer
    case Test => s.(producer := if BufferSetFull(s.wr, s.rd) then Asleep else Read(s.wr % 2, 0))
    case Read(h, c) =>
      if c == s.size then s.(producer := Publish(h))
      else s.(halves := s.halves[h := words + s.halves[h][|words|..]], producer := Read(h, c + |words|), dma := s.dma + words)
    case Publish(h) =>
      s.(wr := (s.wr + 1) % 4, producer := Signal, blocks := s.blocks + [s.halves[h]])
    case Signal => s.(producer := Test, consumer := if s.consumer == Waiting then Loop else s.consumer)
  }

  function ConsumerStep(s: State): State
    requires Shape(s) && s.consumer != Idle && s.consumer != Waiting
  {
    match s.consumer
    case Loop =>
      if |s.got| >= s.want then
        s.(consumer := Idle, wants := s.wants + [s.want], returned := s.returned + [s.got], got := [])
      else if s.current == None then
        if s.wr == s.rd then s.(consumer := Waiting) else s.(current := Some(s.rd % 2), consumed := 0)
      else if s.consumed == s.size then s.(current := None, consumer := Advance)
      else s.(got := s.got + [s.halves[s.current.value][s.consumed]], consumed := s.consumed + 1)
    case Advance => s.(rd := (s.rd + 1) % 4, freed := s.freed + 1, consumer := Wake)
    case Wake => s.(consumer := Loop, producer := if s.producer == Asleep then Test else s.producer)
  }

  /** A run in which no read returns less than it was asked for, or less than least words if that is fewer. */
  ghost predicate Runs(s: State, ms: seq<Move>, s': State, least: nat)
    decreases |ms|
  {
    if ms == [] then s' == s
    else Enabled(s, ms[0]) && ReadsEnough(s, ms[0], least) && Runs(Step(s, ms[0]), ms[1..], s', least)
  }

  predicate ReadsEnough(s: State, m: Move, least: nat)
    requires Shape(s)
  {
    m.Produce? ==> |m.words| >= least || |m.words| == Asked(s)
  }

  function Fresh(size: nat): State {
    var half: seq<Word> := seq(size, k => 0);
    State(size, 0, 0, [half, half], Test, Idle, None, size, 0, [], [], 0, [], [], [])
  }

  // ---------------------------------------------------------------- the words delivered

  /** All words that getWords has handed out, including those of the call that is under way. */
  function Delivered(s: State): seq<Word> { Flatten(s.returned) + s.got }

  /** The part of the half under consumption that has been copied. */
  function Copied(s: State): seq<Word>
    requires Shape(s)
  {
    if s.current.Some? then s.halves[s.current.value][..s.consumed]
    else if s.consumer == Advance && s.freed < |s.blocks| then s.blocks[s.freed]
    else []
  }

  ghost predicate Pointers(s: State) {
    && s.wr == |s.blocks| % 4 && s.rd == s.freed % 4
    && s.freed <= |s.blocks| <= s.freed + 2
  }

  /** The halves hold the blocks that are filled and not given back, and the producer fills the other. */
  ghost predicate Contents(s: State)
    requires Shape(s)
  {
    && (forall k :: 0 <= k < |s.blocks| ==> |s.blocks[k]| == s.size)
    && (s.freed < |s.blocks| ==> s.halves[s.freed % 2] == s.blocks[s.freed])
    && (s.freed + 1 < |s.blocks| ==> s.halves[(s.freed + 1) % 2] == s.blocks[s.freed + 1])
    && (s.producer.Read? ==> s.producer.done == 0 || s.producer.done == s.size)
    && (s.producer.Read? || s.producer.Publish? ==>
          s.producer.half == |s.blocks| % 2 && |s.blocks| < s.freed + 2)
    && (s.current.Some? ==> s.current.value == s.freed % 2 && s.freed < |s.blocks|)
    && (s.consumer == Advance ==> s.freed < |s.blocks| && s.current == None)
  }

  ghost predicate Words(s: State)
    requires Shape(s)
  {
    && s.freed <= |s.blocks|
    && s.dma == Flatten(s.blocks) + (match s.producer
                                     case Read(h, c) => s.halves[h][..c]
                                     case Publish(h) => s.halves[h]
                                     case _ => [])
    && Delivered(s) == Flatten(s.blocks[..s.freed]) + Copied(s)
    && |s.wants| == |s.returned| && (forall k :: 0 <= k < |s.wants| ==> |s.returned[k]| == s.wants[k])
    && (s.consumer == Idle ==> s.got == []) && |s.got| <= s.want
  }

  /** No wake-up is lost: a sleeper has reason to sleep, or its signal is on the way. */
  ghost predicate Wakeful(s: State) {
    && (s.consumer == Waiting ==> s.current == None && (|s.blocks| == s.freed || s.producer == Signal))
    && (s.producer == Asleep ==> |s.blocks| == s.freed + 2 || s.consumer == Wake)
  }

  ghost predicate Inv(s: State) {
    Shape(s) && Pointers(s) && Contents(s) && Words(s) && Wakeful(s)
  }

  lemma ReadKeeps(s: State, words: seq<Word>)
    requires Inv(s) && s.producer.Read? && |words| == Asked(s)
    ensures Inv(ProducerStep(s, words))
  {
    hide Flatten;
    var s' := ProducerStep(s, words);
    var h, c := s.producer.half, s.producer.done;
    if c < s.size {
      assert words + s.halves[h][|words|..] == words;
      assert s'.halves[h][..s.size] == words && s.halves[h][..0] == [];
      OtherHalf(s);
      assert Copied(s') == Copied(s);
    } else {
      assert s.halves[h][..c] == s.halves[h];
    }
  }

  /** The half being filled is the one after the last block in use. */
  lemma OtherHalf(s: State)
    requires Shape(s) && Pointers(s) && Contents(s) && (s.producer.Read? || s.producer.Publish?)
    ensures s.freed < |s.blocks| ==> |s.blocks| == s.freed + 1 && s.freed % 2 != s.producer.half
    ensures s.current.Some? ==> s.current.value != s.producer.half
  {
  }

  lemma PublishKeeps(s: State)
    requires Inv(s) && s.producer.Publish?
    ensures Inv(ProducerStep(s, []))
  {
    PublishContents(s);
    PublishWords(s);
    hide Contents, Words;
  }

  lemma PublishContents(s: State)
    requires Shape(s) && Pointers(s) && Contents(s) && s.producer.Publish?
    ensures var s' := ProducerStep(s, []); Shape(s') && Pointers(s') && Contents(s')
  {
    OtherHalf(s);
  }

  lemma PublishWords(s: State)
    requires Shape(s) && Pointers(s) && Contents(s) && Words(s) && s.producer.Publish?
    ensures Words(ProducerStep(s, []))
  {
    hide Flatten;
    var s' := ProducerStep(s, []);
    FlattenSnoc(s.blocks, s.halves[s.producer.half]);
    assert s'.blocks[..s.freed] == s.blocks[..s.freed];
    assert Copied(s') == Copied(s);
    hide Contents, Pointers;
  }

  lemma TestKeeps(s: State)
    requires Inv(s) && (s.producer.Test? || s.producer.Signal?)
    ensures Inv(ProducerStep(s, []))
  {
    hide Flatten, BufferSetFull, Words, Pointers;
    FullExactly(s);
    TestWords(s);
    PointersTell(s);
  }

  lemma TestWords(s: State)
    requires Shape(s) && Words(s) && (s.producer.Test? || s.producer.Signal?)
    ensures Words(ProducerStep(s, []))
  {
    hide Flatten, BufferSetFull;
    var s' := ProducerStep(s, []);
    assert s'.producer.Read? ==> s.halves[s'.producer.half][..0] == [];
    assert Copied(s') == Copied(s);
  }

  lemma FullExactly(s: State)
    requires Pointers(s)
    ensures BufferSetFull(s.wr, s.rd) <==> |s.blocks| == s.freed + 2
  {
    PointersSuffice(|s.blocks|, s.freed, 2);
    BitTestsAreFull(s.wr, s.rd);
  }

  lemma ReturnKeeps(s: State)
    requires Inv(s) && s.consumer == Loop && |s.got| >= s.want
    ensures Inv(ConsumerStep(s))
  {
    hide Flatten;
    FlattenSnoc(s.returned, s.got);
    var none: seq<Word> := [];
    assert Flatten(s.returned) + s.got + none == Flatten(s.returned) + s.got;
  }

  lemma CopyKeeps(s: State)
    requires Inv(s) && s.consumer == Loop && |s.got| < s.want
    ensures Inv(ConsumerStep(s))
  {
    hide Words, Pointers, Flatten;
    CopyWords(s);
    PointersTell(s);
  }

  lemma PointersTell(s: State)
    requires Pointers(s)
    ensures s.wr == s.rd <==> |s.blocks| == s.freed
    ensures s.rd % 2 == s.freed % 2 && s.wr % 2 == |s.blocks| % 2 && s.freed <= |s.blocks| <= s.freed + 2
    ensures forall s': State :: s'.wr == s.wr && s'.rd == s.rd && s'.blocks == s.blocks && s'.freed == s.freed ==> Pointers(s')
  {
    PointersSuffice(|s.blocks|, s.freed, 2);
    ModHalf(s.freed, 2);
    ModHalf(|s.blocks|, 2);
  }

  lemma CopyWords(s: State)
    requires Shape(s) && Pointers(s) && Contents(s) && Words(s) && s.consumer == Loop && |s.got| < s.want
    ensures Words(ConsumerStep(s))
  {
    hide Flatten;
    if s.current.Some? {
      var h := s.halves[s.current.value];
      assert h == s.blocks[s.freed];
      hide Contents, Pointers;
      if s.consumed == s.size {
        assert h[..s.size] == h;
      } else {
        CopyOne(Flatten(s.returned), s.got, Flatten(s.blocks[..s.freed]), h, s.consumed);
      }
    } else if s.wr != s.rd {
      assert s.halves[s.rd % 2][..0] == [];
    }
  }

  lemma CopyOne(returned: seq<Word>, got: seq<Word>, before: seq<Word>, h: seq<Word>, consumed: nat)
    requires consumed < |h| && returned + got == before + h[..consumed]
    ensures returned + (got + [h[consumed]]) == before + h[..consumed + 1]
  {
    assert h[..consumed + 1] == h[..consumed] + [h[consumed]];
    assert returned + (got + [h[consumed]]) == (returned + got) + [h[consumed]];
    assert before + (h[..consumed] + [h[consumed]]) == (before + h[..consumed]) + [h[consumed]];
  }

  lemma AdvanceKeeps(s: State)
    requires Inv(s) && (s.consumer == Advance || s.consumer == Wake)
    ensures Inv(ConsumerStep(s))
  {
    hide Flatten, Words;
    AdvanceWords(s);
    AdvanceContents(s);
    hide Contents, Pointers;
  }

  lemma AdvanceContents(s: State)
    requires Shape(s) && Pointers(s) && Contents(s) && (s.consumer == Advance || s.consumer == Wake)
    ensures var s' := ConsumerStep(s); Shape(s') && Pointers(s') && Contents(s') && s'.freed <= |s'.blocks|
    ensures s.consumer == Advance ==> s.freed < |s.blocks|
  {
  }

  lemma AdvanceWords(s: State)
    requires Shape(s) && Contents(s) && Words(s) && (s.consumer == Advance || s.consumer == Wake)
    ensures Words(ConsumerStep(s))
  {
    hide Flatten;
    if s.consumer == Advance {
      FlattenSnoc(s.blocks[..s.freed], s.blocks[s.freed]);
      assert s.blocks[..s.freed] + [s.blocks[s.freed]] == s.blocks[..s.freed + 1];
    }
  }

  /** Calls of getWords, and wake-ups without a signal. */
  lemma OtherKeeps(s: State, m: Move)
    requires Inv(s) && Enabled(s, m) && (m.Call? || m.SpuriousProducer? || m.SpuriousConsumer?)
    ensures Inv(Step(s, m)) && Step(s, m).size == s.size
  {
    hide Flatten;
  }

  lemma StepKeeps(s: State, m: Move)
    requires Inv(s) && Enabled(s, m) && ReadsEnough(s, m, s.size)
    ensures Inv(Step(s, m)) && Step(s, m).size == s.size
  {
    match m
    case Produce(words) =>
      assert words == [] || s.producer.Read?;
      hide Contents, Words, Pointers, Wakeful;
      if s.producer.Read? {
        assert |words| == Asked(s) by { NoOvershoot(s, words); }
        ReadKeeps(s, words);
      } else if s.producer.Publish? { PublishKeeps(s); }
      else { TestKeeps(s); }
    case Consume =>
      hide Contents, Words, Pointers, Wakeful;
      if s.consumer != Loop { AdvanceKeeps(s); }
      else if |s.got| >= s.want { ReturnKeeps(s); }
      else { CopyKeeps(s); }
    case _ => OtherKeeps(s, m);
  }

  lemma NoOvershoot(s: State, words: seq<Word>)
    requires Shape(s) && |words| <= Asked(s) && (|words| >= s.size || |words| == Asked(s))
    ensures |words| == Asked(s)
  {
  }

  lemma {:induction false} RunKeeps(s: State, ms: seq<Move>, s': State)
    requires Inv(s) && Runs(s, ms, s', s.size)
    ensures Inv(s')
    decreases |ms|
  {
    if ms != [] {
      StepKeeps(s, ms[0]);
      RunKeeps(Step(s, ms[0]), ms[1..], s');
    }
  }

  lemma FreshInv(size: nat)
    requires size > 0
    ensures Inv(Fresh(size))
  {
  }

  /** From a fresh start and under every interleaving, with full reads: what the getWords calls return, one
      after the other, is a gap-free beginning of what the device delivered; a call that returns has exactly
      the words asked for; the half being filled is never the one being copied; and whenever a call is under
      way, one of the threads can go on without a spurious wake-up. */
  lemma StreamIntegrity(size: nat, ms: seq<Move>, s: State)
    requires size > 0 && Runs(Fresh(size), ms, s, size)
    ensures Delivered(s) <= s.dma
    ensures |s.wants| == |s.returned| && forall k :: 0 <= k < |s.wants| ==> |s.returned[k]| == s.wants[k]
    ensures s.producer.Read? && s.current.Some? ==> s.producer.half != s.current.value
    ensures s.consumer != Idle ==> Shape(s) && (Enabled(s, Consume) || Enabled(s, Produce(seq(Asked(s), k => 0))))
  {
    hide Flatten;
    FreshInv(size);
    RunKeeps(Fresh(size), ms, s);
    FlattenPrefix(s.blocks, s.freed);
    if s.freed < |s.blocks| {
      FlattenPrefix(s.blocks, s.freed + 1);
      FlattenSnoc(s.blocks[..s.freed], s.blocks[s.freed]);
      assert s.blocks[..s.freed] + [s.blocks[s.freed]] == s.blocks[..s.freed + 1];
    }
  }

  // ---------------------------------------------------------------- short reads

  /** The callers get a beginning of the device's words in every run whose reads are at least that long. */
  ghost predicate GapFree(size: nat, least: nat) {
    forall ms: seq<Move>, s: State :: Runs(Fresh(size), ms, s, least) ==> Delivered(s) <= s.dma
  }

  lemma Prepend(s: State, m: Move, ms: seq<Move>, s': State, least: nat)
    requires Enabled(s, m) && ReadsEnough(s, m, least) && Runs(Step(s, m), ms, s', least)
    ensures Runs(s, [m] + ms, s', least)
  {
    assert ([m] + ms)[1..] == ms;
  }

  lemma {:induction false} RunsFewer(s: State, ms: seq<Move>, s': State, least: nat, fewer: nat)
    requires Runs(s, ms, s', least) && fewer <= least
    ensures Runs(s, ms, s', fewer)
    decreases |ms|
  {
    hide Step;
    if ms != [] {
      RunsFewer(Step(s, ms[0]), ms[1..], s', least, fewer);
    }
  }

  /** A half filled by two reads: the second overwrites what the first has put there. */
  function HalfSpoilt(size: nat, m: nat): State
    requires 0 < m < size
  {
    var s, ones, twos := Fresh(size), seq(m, k => 1), seq(size - m, k => 2);
    var first := ones + s.halves[0][m..];
    s.(halves := [twos + first[size - m..], s.halves[1]], producer := Read(0, size), dma := ones + twos)
  }

  lemma TwoReads(size: nat, m: nat) returns (ms: seq<Move>)
    requires 0 < m < size
    ensures Runs(Fresh(size), ms, HalfSpoilt(size, m), m)
  {
    var s0 := Fresh(size);
    var a, b, c := Produce([]), Produce(seq(m, k => 1)), Produce(seq(size - m, k => 2));
    var s1 := Step(s0, a);
    assert s1.producer == Read(0, 0);
    var s2 := Step(s1, b);
    var s3 := Step(s2, c);
    assert s3.halves == HalfSpoilt(size, m).halves;
    assert s3 == HalfSpoilt(size, m);
    assert Runs(s3, [], s3, m);
    Prepend(s2, c, [], s3, m);
    Prepend(s1, b, [c] + [], s3, m);
    Prepend(s0, a, [b] + ([c] + []), s3, m);
    ms := [a] + ([b] + ([c] + []));
  }

  /** The half is handed over, and a caller gets its first word. */
  lemma FirstWord(s: State, least: nat) returns (ms: seq<Move>, s': State)
    requires Shape(s) && s.producer == Read(0, s.size) && s.consumer == Idle && s.current == None
    requires s.wr == 0 && s.rd == 0 && s.blocks == [] && s.freed == 0 && s.got == [] && s.returned == []
    ensures Runs(s, ms, s', least) && s'.got == [s.halves[0][0]] && s'.returned == [] && s'.dma == s.dma
  {
    var s4 := Step(s, Produce([]));
    var s5 := Step(s4, Produce([]));
    var s6 := Step(s5, Call(1));
    var s7 := Step(s6, Consume);
    assert s7.current == Some(0) && s7.consumed == 0;
    s' := Step(s7, Consume);
    assert Runs(s', [], s', least);
    Prepend(s7, Consume, [], s', least);
    Prepend(s6, Consume, [Consume] + [], s', least);
    Prepend(s5, Call(1), [Consume] + ([Consume] + []), s', least);
    Prepend(s4, Produce([]), [Call(1)] + ([Consume] + ([Consume] + [])), s', least);
    Prepend(s, Produce([]), [Produce([])] + ([Call(1)] + ([Consume] + ([Consume] + []))), s', least);
    ms := [Produce([])] + ([Produce([])] + ([Call(1)] + ([Consume] + ([Consume] + []))));
  }

  lemma {:induction false} RunsOn(s: State, ms: seq<Move>, s1: State, more: seq<Move>, s2: State, least: nat)
    requires Runs(s, ms, s1, least) && Runs(s1, more, s2, least)
    ensures Runs(s, ms + more, s2, least)
    decreases |ms|
  {
    hide Step;
    if ms == [] {
      assert ms + more == more;
    } else {
      assert (ms + more)[1..] == ms[1..] + more;
      RunsOn(Step(s, ms[0]), ms[1..], s1, more, s2, least);
    }
  }

  lemma ShortReadSpoils(size: nat, m: nat) returns (ms: seq<Move>, s: State)
    requires 0 < m < size
    ensures Runs(Fresh(size), ms, s, m) && !(Delivered(s) <= s.dma)
  {
    var before := TwoReads(size, m);
    var more;
    more, s := FirstWord(HalfSpoilt(size, m), m);
    RunsOn(Fresh(size), before, HalfSpoilt(size, m), more, s, m);
    ms := before + more;
    assert Delivered(s)[0] == 2 && s.dma[0] == 1;
  }

  /** It is full reads that this takes, and nothing less will do: the callers get what the device delivered,
      for all schedules, if and only if every read returns all that it was asked for. */
  lemma FullReadsIff(size: nat, least: nat)
    requires size >= 2
    ensures GapFree(size, least) <==> least >= size
  {
    hide Runs, Delivered, Step;
    if least >= size {
      forall ms: seq<Move>, s: State | Runs(Fresh(size), ms, s, least)
        ensures Delivered(s) <= s.dma
      {
        RunsFewer(Fresh(size), ms, s, least, size);
        StreamIntegrity(size, ms, s);
      }
    } else {
      var m := if least == 0 then 1 else least;
      var ms, s := ShortReadSpoils(size, m);
      RunsFewer(Fresh(size), ms, s, m, least);
    }
  }
}
