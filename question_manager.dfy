/**
  The question buffer manager (services/questionManager.ts): three FIFO
  buffers of prepared questions, one per concrete difficulty, a bounded
  history of the prompts already produced, and a single-flight background
  refill.

  The question generator is an oracle: a function from a request (level,
  number of questions, the history as it stood when the request was made)
  to either a failure or a list of questions.  A background batch that
  arrives later is delivered by calling `OnBatchArrived`.

  The background refill is a loop over the three levels that pauses after
  every request it dispatches.  `RefillBuffers` runs it up to its first
  pause, `ContinueRefill` resumes it after a pause; the `isRefilling` guard
  stays set from the start of a pass to its end, and `refillNext` records
  where a paused pass will resume.
 */
module QuestionManager {
  import opened Types

  const MAX_HISTORY: nat := 200
  const BUFFER_SIZE: nat := 40
  /** The size of every background request. */
  const BATCH_SIZE: nat := 5

  /** `Math.ceil(c / 3)` on an integer. */
  function Ceil3(c: int): (r: int)
    ensures 3 * r - 3 < c <= 3 * r
  {
    -((-c) / 3)
  }

  datatype Buffers = Buffers(easy: seq<Question>, medium: seq<Question>, hard: seq<Question>)
  {
    function Get(l: Level): seq<Question> {
      if l == Easy then easy else if l == Medium then medium else hard
    }

    /** The buffers with the one for `l` replaced. */
    function With(l: Level, q: seq<Question>): (b: Buffers)
      ensures b.Get(l) == q
      ensures forall m: Level :: m != l ==> b.Get(m) == Get(m)
    {
      if l == Easy then Buffers(q, medium, hard)
      else if l == Medium then Buffers(easy, q, hard)
      else Buffers(easy, medium, q)
    }
  }

  /** Replacing a buffer twice keeps only the second replacement. */
  lemma WithTwice(b: Buffers, l: Level, x: seq<Question>, y: seq<Question>)
    ensures b.With(l, x).With(l, y) == b.With(l, y)
  {
  }

  const EmptyBuffers := Buffers([], [], [])

  /** A call of the generator: level, number of questions, and the prompts
      it is asked to avoid. */
  datatype GenRequest = GenRequest(level: Level, count: int, avoid: seq<string>)

  /** The generator: it fails, or returns some questions. */
  type Generator = GenRequest -> Option<seq<Question>>

  /** The prompts of `qs`, in order. */
  function Prompts(qs: seq<Question>): (ps: seq<string>)
    ensures |ps| == |qs| && forall i :: 0 <= i < |qs| ==> ps[i] == qs[i].prompt
  {
    if qs == [] then [] else Prompts(qs[..|qs| - 1]) + [qs[|qs| - 1].prompt]
  }

  /** The newest `n` entries of `s`, in order; all of `s` when it is
      shorter. */
  function LastN(s: seq<string>, n: nat): (r: seq<string>)
    ensures |r| == (if |s| <= n then |s| else n)
    ensures r == s[|s| - |r|..]
  {
    if |s| <= n then s else s[|s| - n..]
  }

  /** Appending one entry and then dropping the oldest when over the bound,
      as `addToHistory` does, keeps the history equal to the newest `n`
      entries of everything recorded. */
  lemma LastNStep(x: seq<string>, p: string, n: nat)
    requires n > 0
    ensures LastN(LastN(x, n) + [p], n) == LastN(x + [p], n)
  {
    if |x| > n {
      assert x[|x| - n..] + [p] == (x + [p])[|x| - n..];
      assert (x[|x| - n..] + [p])[1..] == (x + [p])[|x| + 1 - n..];
    }
  }

  /** One more prompt of the batch recorded. */
  lemma RecordStep(h: seq<string>, qs: seq<Question>, i: nat)
    requires i < |qs|
    ensures LastN(LastN(h + Prompts(qs[..i]), MAX_HISTORY) + [qs[i].prompt], MAX_HISTORY)
      == LastN(h + Prompts(qs[..i + 1]), MAX_HISTORY)
  {
    assert qs[..i + 1][..i] == qs[..i];
    assert h + Prompts(qs[..i + 1]) == (h + Prompts(qs[..i])) + [qs[i].prompt];
    LastNStep(h + Prompts(qs[..i]), qs[i].prompt, MAX_HISTORY);
  }

  /** A push onto a history within its bound overflows by at most one entry,
      which one `shift` removes. */
  lemma PushEvicts(h: seq<string>, p: string)
    requires |h| <= MAX_HISTORY
    ensures LastN(h + [p], MAX_HISTORY) == if |h + [p]| > MAX_HISTORY then (h + [p])[1..] else h + [p]
  {
  }

  /** The whole state the buffer operations read and write. */
  datatype Store = Store(buffers: Buffers, history: seq<string>)

  /** What a pop returns, and the state it leaves. */
  datatype Popped = Popped(items: seq<Question>, store: Store)

  /** How many questions the `while` loop of `popFromBuffer` moves out of a
      buffer holding `available` of them. */
  function Taken(count: int, available: nat): (k: nat)
    ensures k <= available
    ensures k < count <==> available < count
    ensures count <= available ==> k == (if count < 0 then 0 else count)
  {
    if count <= 0 then 0 else if count < available then count else available
  }

  /** The record of a batch of new questions: prompts are appended to the
      history, which keeps only the newest `MAX_HISTORY` of them. */
  function Record(history: seq<string>, qs: seq<Question>): (h: seq<string>)
    ensures |h| <= MAX_HISTORY && |h| <= |history| + |qs|
    ensures h == (history + Prompts(qs))[|history| + |qs| - |h|..]
    ensures |history| + |qs| <= MAX_HISTORY ==> h == history + Prompts(qs)
  {
    LastN(history + Prompts(qs), MAX_HISTORY)
  }

  /** The on-demand request `popFromBuffer` makes, if any. */
  function PopRequest(st: Store, diff: Level, count: int): Option<GenRequest> {
    if Taken(count, |st.buffers.Get(diff)|) < count then
      Some(GenRequest(diff, count - Taken(count, |st.buffers.Get(diff)|), st.history))
    else None
  }

  /** The `while` loop of `popFromBuffer`: the questions moved out of the
      buffer, and the state with that buffer drained. */
  function Drain(st: Store, diff: Level, count: int): Popped {
    Popped(st.buffers.Get(diff)[..Taken(count, |st.buffers.Get(diff)|)],
      Store(st.buffers.With(diff, st.buffers.Get(diff)[Taken(count, |st.buffers.Get(diff)|)..]), st.history))
  }

  /** The generator's answer to the on-demand request, if one is made. */
  function Reply(st: Store, diff: Level, count: int, gen: Generator): Option<seq<Question>> {
    match PopRequest(st, diff, count)
    case None => None
    case Some(req) => gen(req)
  }

  /** Adding a delivered batch: it follows what the buffer gave, and its
      prompts are recorded; a failed request adds nothing. */
  function Serve(d: Popped, reply: Option<seq<Question>>): Popped {
    match reply
    case None => d
    case Some(batch) => Popped(d.items + batch, Store(d.store.buffers, Record(d.store.history, batch)))
  }

  /** `popFromBuffer`: take from the front of the buffer, then ask the
      generator for the shortfall; a failed request is swallowed. */
  function Pop(st: Store, diff: Level, count: int, gen: Generator): (p: Popped)
  {
    Serve(Drain(st, diff, count), Reply(st, diff, count, gen))
  }

  /** `Pop` after the loop: the drained state is final when the buffer
      had enough; otherwise the missing number is asked for, with the
      history as it stands. */
  lemma PopAfterDrain(st: Store, diff: Level, count: int, gen: Generator)
    ensures |Drain(st, diff, count).items| >= count ==> Pop(st, diff, count, gen) == Drain(st, diff, count)
    ensures |Drain(st, diff, count).items| < count ==>
      Pop(st, diff, count, gen) ==
        Serve(Drain(st, diff, count), gen(GenRequest(diff, count - |Drain(st, diff, count).items|, st.history)))
  {
    assert |Drain(st, diff, count).items| == Taken(count, |st.buffers.Get(diff)|);
  }

  /** Popping takes the first `min(count, |buffer|)` questions in order, and
      the buffer keeps exactly the rest; the other buffers are untouched. */
  lemma PopTakesFront(st: Store, diff: Level, count: int, gen: Generator)
    ensures var k := Taken(count, |st.buffers.Get(diff)|);
      && k <= |Pop(st, diff, count, gen).items|
      && Pop(st, diff, count, gen).items[..k] == st.buffers.Get(diff)[..k]
      && Pop(st, diff, count, gen).store.buffers.Get(diff) == st.buffers.Get(diff)[k..]
    ensures forall m: Level :: m != diff ==> Pop(st, diff, count, gen).store.buffers.Get(m) == st.buffers.Get(m)
  {
    var buf := st.buffers.Get(diff);
    var k := Taken(count, |buf|);
    var p := Pop(st, diff, count, gen);
    match PopRequest(st, diff, count)
    case None =>
    case Some(req) =>
      match gen(req)
      case None =>
      case Some(batch) =>
        assert p.items == buf[..k] + batch;
        assert (buf[..k] + batch)[..k] == buf[..k];
  }

  /** With enough in stock, no request is made: exactly `count` questions
      come from the buffer and the history is unchanged. */
  lemma PopFromStock(st: Store, diff: Level, count: int, gen: Generator)
    requires 0 <= count <= |st.buffers.Get(diff)|
    ensures PopRequest(st, diff, count) == None
    ensures Pop(st, diff, count, gen).items == st.buffers.Get(diff)[..count]
    ensures Pop(st, diff, count, gen).store.history == st.history
  {
  }

  /** On a shortfall, the generator is asked for exactly the missing number,
      with the history as it stands; if it fails, the result is just what
      the buffer held, fewer than asked for, and the history is unchanged. */
  lemma PopShortfall(st: Store, diff: Level, count: int, gen: Generator)
    requires |st.buffers.Get(diff)| < count
    ensures PopRequest(st, diff, count) == Some(GenRequest(diff, count - |st.buffers.Get(diff)|, st.history))
    ensures gen(GenRequest(diff, count - |st.buffers.Get(diff)|, st.history)).None? ==>
      && Pop(st, diff, count, gen).items == st.buffers.Get(diff)
      && |Pop(st, diff, count, gen).items| < count
      && Pop(st, diff, count, gen).store.history == st.history
    ensures gen(GenRequest(diff, count - |st.buffers.Get(diff)|, st.history)).Some? ==>
      var batch := gen(GenRequest(diff, count - |st.buffers.Get(diff)|, st.history)).value;
      && Pop(st, diff, count, gen).items == st.buffers.Get(diff) + batch
      && Pop(st, diff, count, gen).store.history == Record(st.history, batch)
  {
    var buf := st.buffers.Get(diff);
    assert buf[..|buf|] == buf;
  }

  /** A pop returns fewer questions than asked for only after emptying its
      buffer. */
  lemma PopShortEmpties(st: Store, diff: Level, count: int, gen: Generator)
    ensures |Pop(st, diff, count, gen).items| < count ==> Pop(st, diff, count, gen).store.buffers.Get(diff) == []
  {
    var buf := st.buffers.Get(diff);
    var k := Taken(count, |buf|);
    PopTakesFront(st, diff, count, gen);
    if k < count {
      assert k == |buf|;
    }
  }

  /** The history never grows past its bound. */
  lemma PopKeepsHistoryBound(st: Store, diff: Level, count: int, gen: Generator)
    ensures |st.history| <= MAX_HISTORY ==> |Pop(st, diff, count, gen).store.history| <= MAX_HISTORY
  {
  }

  /** `getQuestions` before the shuffle: a concrete level is one pop; `mixed`
      asks easy and medium for `ceil(count / 3)` each and hard for what is
      still missing after those two have returned. */
  function Collect(st: Store, difficulty: Difficulty, count: int, gen: Generator): (c: Popped)
    ensures |st.history| <= MAX_HISTORY ==> |c.store.history| <= MAX_HISTORY
  {
    if difficulty == Mixed then
      MixedKeepsHistoryBound(st, count, gen);
      Popped(MixedEasy(st, count, gen).items + MixedMedium(st, count, gen).items + MixedHard(st, count, gen).items,
        MixedHard(st, count, gen).store)
    else
      PopKeepsHistoryBound(st, difficulty, count, gen);
      Pop(st, difficulty, count, gen)
  }

  /** The three pops of a `mixed` request, in order. */
  function MixedEasy(st: Store, count: int, gen: Generator): Popped {
    Pop(st, Easy, Ceil3(count), gen)
  }

  function MixedMedium(st: Store, count: int, gen: Generator): Popped {
    Pop(MixedEasy(st, count, gen).store, Medium, Ceil3(count), gen)
  }

  /** What is still missing once easy and medium have returned. */
  function HardShare(st: Store, count: int, gen: Generator): int {
    count - |MixedEasy(st, count, gen).items| - |MixedMedium(st, count, gen).items|
  }

  function MixedHard(st: Store, count: int, gen: Generator): Popped {
    Pop(MixedMedium(st, count, gen).store, Hard, HardShare(st, count, gen), gen)
  }

  lemma MixedKeepsHistoryBound(st: Store, count: int, gen: Generator)
    ensures |st.history| <= MAX_HISTORY ==> |MixedHard(st, count, gen).store.history| <= MAX_HISTORY
  {
    if |st.history| <= MAX_HISTORY {
      PopKeepsHistoryBound(st, Easy, Ceil3(count), gen);
      PopKeepsHistoryBound(MixedEasy(st, count, gen).store, Medium, Ceil3(count), gen);
      PopKeepsHistoryBound(MixedMedium(st, count, gen).store, Hard, HardShare(st, count, gen), gen);
    }
  }

  /** With every buffer stocked, `mixed` is served from the buffers alone:
      `ceil(count / 3)` easy, as many medium, and the rest hard. */
  lemma MixedFromStock(st: Store, count: int, gen: Generator)
    requires count >= 2
    requires Ceil3(count) <= |st.buffers.easy| && Ceil3(count) <= |st.buffers.medium|
    requires count - 2 * Ceil3(count) <= |st.buffers.hard|
    ensures Collect(st, Mixed, count, gen).items ==
      st.buffers.easy[..Ceil3(count)] + st.buffers.medium[..Ceil3(count)] + st.buffers.hard[..count - 2 * Ceil3(count)]
    ensures Collect(st, Mixed, count, gen).store.history == st.history
  {
    var s := Ceil3(count);
    PopFromStock(st, Easy, s, gen);
    var e := Pop(st, Easy, s, gen);
    PopTakesFront(st, Easy, s, gen);
    PopFromStock(e.store, Medium, s, gen);
    var m := Pop(e.store, Medium, s, gen);
    PopTakesFront(e.store, Medium, s, gen);
    PopFromStock(m.store, Hard, count - 2 * s, gen);
    PopTakesFront(m.store, Hard, count - 2 * s, gen);
  }

  /** 30 questions are split 10 / 10 / 10. */
  lemma MixedThirty(st: Store, gen: Generator)
    requires |st.buffers.easy| >= 10 && |st.buffers.medium| >= 10 && |st.buffers.hard| >= 10
    ensures Collect(st, Mixed, 30, gen).items ==
      st.buffers.easy[..10] + st.buffers.medium[..10] + st.buffers.hard[..10]
  {
    assert Ceil3(30) == 10;
    MixedFromStock(st, 30, gen);
  }

  /** 31 questions are split 11 / 11 / 9. */
  lemma MixedThirtyOne(st: Store, gen: Generator)
    requires |st.buffers.easy| >= 11 && |st.buffers.medium| >= 11 && |st.buffers.hard| >= 9
    ensures Collect(st, Mixed, 31, gen).items ==
      st.buffers.easy[..11] + st.buffers.medium[..11] + st.buffers.hard[..9]
  {
    assert Ceil3(31) == 11;
    MixedFromStock(st, 31, gen);
  }

  /** A request for one mixed question returns two: easy and medium each
      give one, and the hard request, `1 - 2`, asks for nothing. */
  lemma MixedOneGivesTwo(st: Store, gen: Generator)
    requires |st.buffers.easy| >= 1 && |st.buffers.medium| >= 1
    ensures Collect(st, Mixed, 1, gen).items == [st.buffers.easy[0], st.buffers.medium[0]]
  {
    assert Ceil3(1) == 1;
    var e := Pop(st, Easy, 1, gen);
    PopFromStock(st, Easy, 1, gen);
    PopTakesFront(st, Easy, 1, gen);
    var m := Pop(e.store, Medium, 1, gen);
    PopFromStock(e.store, Medium, 1, gen);
    PopTakesFront(e.store, Medium, 1, gen);
    assert Pop(m.store, Hard, -1, gen).items == [];
  }

  /** A generator that always delivers exactly what it is asked for. */
  ghost predicate Exact(gen: Generator) {
    forall r :: gen(r).Some? && |gen(r).value| == (if r.count < 0 then 0 else r.count)
  }

  lemma ExactPop(st: Store, diff: Level, count: int, gen: Generator)
    requires Exact(gen)
    ensures |Pop(st, diff, count, gen).items| == (if count < 0 then 0 else count)
  {
    var buf := st.buffers.Get(diff);
    var k := Taken(count, |buf|);
    if k < count {
      var req := GenRequest(diff, count - k, st.history);
      assert |gen(req).value| == count - k;
    }
  }

  /** The hard request is for what easy and medium actually returned short
      of `count`, not for `count - 2 * ceil(count / 3)`: with enough hard
      questions in stock, `mixed` makes up any shortfall of the other two
      levels and returns exactly `count` questions, or more when easy and
      medium already returned more than `count` between them. */
  lemma MixedHardIsRest(st: Store, count: int, gen: Generator)
    requires count <= |st.buffers.Get(Hard)|
    ensures var got := |MixedEasy(st, count, gen).items| + |MixedMedium(st, count, gen).items|;
      |Collect(st, Mixed, count, gen).items| == if got <= count then count else got
  {
    var e := MixedEasy(st, count, gen);
    var m := MixedMedium(st, count, gen);
    PopTakesFront(st, Easy, Ceil3(count), gen);
    PopTakesFront(e.store, Medium, Ceil3(count), gen);
    assert m.store.buffers.Get(Hard) == st.buffers.Get(Hard);
    var share := HardShare(st, count, gen);
    if share >= 0 {
      PopFromStock(m.store, Hard, share, gen);
    } else {
      assert Taken(share, |m.store.buffers.Get(Hard)|) == 0;
      assert MixedHard(st, count, gen).items == [];
    }
  }

  /** Because the hard share is computed from what easy and medium actually
      returned, a generator that always delivers makes `mixed` return
      exactly `count` questions for every `count` of at least 2. */
  lemma MixedExact(st: Store, count: int, gen: Generator)
    requires Exact(gen) && count >= 2
    ensures |Collect(st, Mixed, count, gen).items| == count
  {
    var s := Ceil3(count);
    var e := Pop(st, Easy, s, gen);
    ExactPop(st, Easy, s, gen);
    var m := Pop(e.store, Medium, s, gen);
    ExactPop(e.store, Medium, s, gen);
    ExactPop(m.store, Hard, count - |e.items| - |m.items|, gen);
  }

  // ---------------------------------------------------------------------
  // The background refill pass
  // ---------------------------------------------------------------------

  /** The order in which the pass visits the levels. */
  function LevelAt(i: nat): Level
    requires i < 3
  {
    if i == 0 then Easy else if i == 1 then Medium else Hard
  }

  /** The first position from `from` on whose buffer is below
      `BUFFER_SIZE`, or 3 when there is none. */
  function NextShort(b: Buffers, from: nat): (i: nat)
    requires from <= 3
    ensures from <= i <= 3
    ensures forall j :: from <= j < i ==> |b.Get(LevelAt(j))| >= BUFFER_SIZE
    ensures i < 3 ==> |b.Get(LevelAt(i))| < BUFFER_SIZE
    decreases 3 - from
  {
    if from == 3 then 3
    else if |b.Get(LevelAt(from))| < BUFFER_SIZE then from
    else NextShort(b, from + 1)
  }

  /** What a paused pass does when it resumes: dispatch a batch for the
      next short level and pause again, or finish. */
  datatype Step = Paused(request: GenRequest, next: nat) | Done

  function Resume(b: Buffers, history: seq<string>, from: nat): (s: Step)
    requires from <= 3
    ensures s.Paused? ==> from < s.next <= 3
  {
    var i := NextShort(b, from);
    if i < 3 then Paused(GenRequest(LevelAt(i), BATCH_SIZE, history), i + 1) else Done
  }

  /** The requests of a whole pass over buffers that do not change while
      it runs. */
  function Pass(b: Buffers, history: seq<string>, from: nat): seq<GenRequest>
    requires from <= 3
    decreases 3 - from
  {
    match Resume(b, history, from)
    case Done => []
    case Paused(req, next) => [req] + Pass(b, history, next)
  }

  /** The reference list: one batch for each level below `BUFFER_SIZE`, in
      the order easy, medium, hard. */
  function ShortBatches(b: Buffers, history: seq<string>): seq<GenRequest> {
    (if |b.easy| < BUFFER_SIZE then [GenRequest(Easy, BATCH_SIZE, history)] else [])
    + (if |b.medium| < BUFFER_SIZE then [GenRequest(Medium, BATCH_SIZE, history)] else [])
    + (if |b.hard| < BUFFER_SIZE then [GenRequest(Hard, BATCH_SIZE, history)] else [])
  }

  lemma PassFromHard(b: Buffers, history: seq<string>)
    ensures Pass(b, history, 2) ==
      (if |b.hard| < BUFFER_SIZE then [GenRequest(Hard, BATCH_SIZE, history)] else [])
  {
    assert Pass(b, history, 3) == [];
  }

  lemma PassFromMedium(b: Buffers, history: seq<string>)
    ensures Pass(b, history, 1) ==
      (if |b.medium| < BUFFER_SIZE then [GenRequest(Medium, BATCH_SIZE, history)] else [])
      + (if |b.hard| < BUFFER_SIZE then [GenRequest(Hard, BATCH_SIZE, history)] else [])
  {
    PassFromHard(b, history);
  }

  /** A pass requests a batch of `BATCH_SIZE` for exactly the levels whose
      buffer is below `BUFFER_SIZE`, in the order easy, medium, hard. */
  lemma PassIsShortBatches(b: Buffers, history: seq<string>)
    ensures Pass(b, history, 0) == ShortBatches(b, history)
  {
    PassFromMedium(b, history);
  }

  // ---------------------------------------------------------------------
  // The manager object
  // ---------------------------------------------------------------------

  class Manager {
    var buffers: Buffers
    var history: seq<string>
    var isRefilling: bool
    /** Where a paused refill pass resumes, from 0 (easy) to 3 (finished). */
    var refillNext: nat

    ghost predicate Valid()
      reads this
    {
      |history| <= MAX_HISTORY && refillNext <= 3
    }

    function State(): Store
      reads this
    {
      Store(buffers, history)
    }

    /** An explicitly constructed manager with empty buffers and history. */
    constructor ()
      ensures Valid() && buffers == EmptyBuffers && history == [] && !isRefilling
    {
      buffers := EmptyBuffers;
      history := [];
      isRefilling := false;
      refillNext := 0;
    }

    /** `addToHistory`: push each prompt, dropping the oldest entry whenever
        the history is over its bound. */
    method AddToHistory(qs: seq<Question>)
      requires Valid()
      modifies this`history
      ensures Valid()
      ensures history == Record(old(history), qs)
    {
      for i := 0 to |qs|
        invariant |history| <= MAX_HISTORY
        invariant history == LastN(old(history) + Prompts(qs[..i]), MAX_HISTORY)
      {
        RecordStep(old(history), qs, i);
        PushEvicts(history, qs[i].prompt);
        history := history + [qs[i].prompt];
        if |history| > MAX_HISTORY {
          history := history[1..];
        }
      }
      assert qs[..|qs|] == qs;
    }

    /** `popFromBuffer`. */
    method PopFromBuffer(diff: Level, count: int, gen: Generator) returns (extracted: seq<Question>)
      requires Valid()
      modifies this`buffers, this`history
      ensures Valid()
      ensures Popped(extracted, State()) == Pop(old(State()), diff, count, gen)
    {
      ghost var buf := buffers.Get(diff);
      extracted := [];
      while |extracted| < count && |buffers.Get(diff)| > 0
        invariant extracted + buffers.Get(diff) == buf
        invariant buffers == old(buffers).With(diff, buffers.Get(diff))
        invariant |extracted| <= Taken(count, |buf|)
        invariant history == old(history)
        decreases |buffers.Get(diff)|
      {
        var b := buffers.Get(diff);
        assert (extracted + [b[0]]) + b[1..] == extracted + b;
        WithTwice(old(buffers), diff, b, b[1..]);
        extracted := extracted + [b[0]];
        buffers := buffers.With(diff, b[1..]);
      }
      assert |extracted| == Taken(count, |buf|);
      assert extracted == buf[..|extracted|] && buffers.Get(diff) == buf[|extracted|..];
      assert Popped(extracted, State()) == Drain(old(State()), diff, count);
      PopAfterDrain(old(State()), diff, count, gen);
      if |extracted| < count {
        var needed := count - |extracted|;
        var batch := gen(GenRequest(diff, needed, history));
        if batch.Some? {
          AddToHistory(batch.value);
          extracted := extracted + batch.value;
        }
      }
    }

    /** Resume a paused refill pass: scan on from `refillNext`, dispatch a
        batch for the first short level and pause, or end the pass and
        clear the guard. */
    method ContinueRefill() returns (dispatched: Option<GenRequest>)
      requires Valid() && isRefilling
      modifies this`isRefilling, this`refillNext
      ensures Valid()
      ensures Resume(buffers, history, old(refillNext)) ==
        (if dispatched.Some? then Paused(dispatched.value, refillNext) else Done)
      ensures isRefilling == dispatched.Some?
    {
      var i := refillNext;
      while i < 3 && |buffers.Get(LevelAt(i))| >= BUFFER_SIZE
        invariant refillNext <= i <= 3
        invariant NextShort(buffers, refillNext) == NextShort(buffers, i)
        decreases 3 - i
      {
        i := i + 1;
      }
      if i < 3 {
        dispatched := Some(GenRequest(LevelAt(i), BATCH_SIZE, history));
        refillNext := i + 1;
      } else {
        dispatched := None;
        isRefilling := false;
        refillNext := 0;
      }
    }

    /** `refillBuffers`: a no-op while a pass is under way; otherwise set
        the guard and run a new pass up to its first pause. */
    method RefillBuffers() returns (dispatched: Option<GenRequest>)
      requires Valid()
      modifies this`isRefilling, this`refillNext
      ensures Valid()
      ensures old(isRefilling) ==> dispatched == None && isRefilling && refillNext == old(refillNext)
      ensures !old(isRefilling) ==>
        Resume(buffers, history, 0) ==
          (if dispatched.Some? then Paused(dispatched.value, refillNext) else Done)
      ensures isRefilling == (old(isRefilling) || dispatched.Some?)
    {
      if isRefilling {
        return None;
      }
      isRefilling := true;
      refillNext := 0;
      dispatched := ContinueRefill();
    }

    /** The `then` callback of a background request: record the prompts and
        append the batch to the back of its own buffer only. */
    method OnBatchArrived(diff: Level, qs: seq<Question>)
      requires Valid()
      modifies this`buffers, this`history
      ensures Valid()
      ensures history == Record(old(history), qs)
      ensures buffers.Get(diff) == old(buffers.Get(diff)) + qs
      ensures forall m: Level :: m != diff ==> buffers.Get(m) == old(buffers.Get(m))
    {
      AddToHistory(qs);
      buffers := buffers.With(diff, buffers.Get(diff) + qs);
    }

    /** The collecting part of `getQuestions`, before the shuffle. */
    method CollectQuestions(difficulty: Difficulty, count: int, gen: Generator)
      returns (result: seq<Question>)
      requires Valid()
      modifies this`buffers, this`history
      ensures Valid()
      ensures Popped(result, State()) == Collect(old(State()), difficulty, count, gen)
    {
      if difficulty == Mixed {
        ghost var st0 := State();
        var subCount := Ceil3(count);
        var qEasy := PopFromBuffer(Easy, subCount, gen);
        assert Popped(qEasy, State()) == MixedEasy(st0, count, gen);
        var qMed := PopFromBuffer(Medium, subCount, gen);
        assert Popped(qMed, State()) == MixedMedium(st0, count, gen);
        var qHard := PopFromBuffer(Hard, count - |qEasy| - |qMed|, gen);
        assert Popped(qHard, State()) == MixedHard(st0, count, gen);
        result := qEasy + qMed + qHard;
      } else {
        result := PopFromBuffer(difficulty, count, gen);
      }
    }

    /** `getQuestions`: collect, shuffle into some permutation, and kick off
        the background refill. */
    method GetQuestions(difficulty: Difficulty, count: int, gen: Generator)
      returns (shuffled: seq<Question>, dispatched: Option<GenRequest>)
      requires Valid()
      modifies this
      ensures Valid()
      ensures multiset(shuffled) == multiset(Collect(old(State()), difficulty, count, gen).items)
      ensures State() == Collect(old(State()), difficulty, count, gen).store
      ensures old(isRefilling) ==> dispatched == None && isRefilling && refillNext == old(refillNext)
      ensures !old(isRefilling) ==>
        Resume(buffers, history, 0) ==
          (if dispatched.Some? then Paused(dispatched.value, refillNext) else Done)
      ensures isRefilling == (old(isRefilling) || dispatched.Some?)
    {
      var result := CollectQuestions(difficulty, count, gen);
      ghost var collected := State();
      assert multiset(result) == multiset(result);
      shuffled :| multiset(shuffled) == multiset(result);
      dispatched := RefillBuffers();
      assert State() == collected;
    }

    /** `clearMemory`: forget the history, empty the buffers and start a
        refill; when no pass was running, the new one asks for an easy
        batch at once, since every buffer is now empty. */
    method ClearMemory() returns (dispatched: Option<GenRequest>)
      requires Valid()
      modifies this
      ensures Valid()
      ensures history == [] && buffers == EmptyBuffers && isRefilling
      ensures old(isRefilling) ==> dispatched == None && refillNext == old(refillNext)
      ensures !old(isRefilling) ==> dispatched == Some(GenRequest(Easy, BATCH_SIZE, [])) && refillNext == 1
    {
      history := [];
      buffers := EmptyBuffers;
      assert NextShort(EmptyBuffers, 0) == 0;
      dispatched := RefillBuffers();
    }
  }
}
