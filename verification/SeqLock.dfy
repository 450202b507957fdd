/**
 The shared time frame: one writer publishes six fields under a sequence counter, any number of
 readers copy them without a lock. Each load and each store of a shared word is one step, and the
 steps of the parties interleave in any order.
 */
module SeqLock {

  import opened Common

  const LATCH := U64_MAX
  const MAX_VALID_EVEN := U64_MAX - 1
  const MAX_RETRIES := 10_000
  const FIELDS := 6

  /** Boot epoch, ticks, frequency, capture TSC, drift bound, flags: in the order they are stored and loaded. */
  type Frame = f: seq<nat> | |f| == FIELDS witness [0, 0, 0, 0, 0, 0]

  const INITIAL: Frame := [0, 0, 0, 0, 0, 0]

  type Stage = k: nat | k <= FIELDS

  /** Where `publish` stands: about to compare the loaded sequence, or with fields below `k` stored. */
  datatype Writer = Idle | Loaded(cur: nat, value: Frame) | Storing(odd: nat, value: Frame, k: Stage)

  datatype Observation = Observation(sequence: nat, fields: seq<nat>)

  /** Where `read_observation` stands. `since` records how many frames existed when the read began. */
  datatype Reader =
    | Resting
    | Starting(since: nat, retries: nat)
    | Copying(since: nat, retries: nat, seq1: nat, got: seq<nat>)
    | Returned(since: nat, seen: Observation)
    | Unavailable

  /** The shared words, the parties, and the frames completed so far with the initial one first. */
  datatype World = World(sequence: nat, frame: Frame, writer: Writer, readers: seq<Reader>, history: seq<Frame>)

  datatype Step = Publish(value: Frame) | Latch | Write | Read(r: nat) | Advance(r: nat)

  ghost predicate Allowed(w: World, s: Step) {
    match s
    case Publish(_) => w.writer.Idle?
    case Latch => true
    case Write => !w.writer.Idle?
    case Read(r) => r < |w.readers|
    case Advance(r) => r < |w.readers| && (w.readers[r].Starting? || w.readers[r].Copying?)
  }

  /** The next store of a publish in progress. */
  ghost function WriteNext(w: World): World
    requires !w.writer.Idle?
  {
    match w.writer
    case Loaded(cur, value) =>
      if cur == LATCH then w.(writer := Idle)
      else if cur + 1 >= MAX_VALID_EVEN then w.(sequence := LATCH, writer := Idle)
      else w.(sequence := cur + 1, writer := Storing(cur + 1, value, 0))
    case Storing(odd, value, k) =>
      if k < FIELDS then w.(frame := w.frame[k := value[k]], writer := Storing(odd, value, k + 1))
      else w.(sequence := odd + 1, writer := Idle, history := w.history + [value])
  }

  ghost function Retry(since: nat, retries: nat): Reader {
    if retries + 1 > MAX_RETRIES then Unavailable else Starting(since, retries + 1)
  }

  /** The next load of a read in progress. */
  ghost function ReadNext(w: World, reader: Reader): Reader
    requires reader.Starting? || reader.Copying?
  {
    match reader
    case Starting(since, retries) =>
      if w.sequence == LATCH then Unavailable
      else if w.sequence % 2 != 0 then Retry(since, retries)
      else Copying(since, retries, w.sequence, [])
    case Copying(since, retries, seq1, got) =>
      if |got| < FIELDS then Copying(since, retries, seq1, got + [w.frame[|got|]])
      else if w.sequence == seq1 then Returned(since, Observation(seq1, got))
      else Retry(since, retries)
  }

  ghost function Apply(w: World, s: Step): World
    requires Allowed(w, s)
  {
    match s
    case Publish(value) => w.(writer := Loaded(w.sequence, value))
    case Latch => w.(sequence := LATCH)
    case Write => WriteNext(w)
    case Read(r) => w.(readers := w.readers[r := Starting(|w.history|, 0)])
    case Advance(r) => w.(readers := w.readers[r := ReadNext(w, w.readers[r])])
  }

  // ---------------------------------------------------------------- the invariant

  /** Between publishes the sequence is twice the number of publishes and the frame is the last one. */
  ghost predicate Settled(w: World)
    requires w.history != []
  {
    w.sequence == 2 * (|w.history| - 1) && w.frame == w.history[|w.history| - 1]
  }

  ghost predicate WriterSound(w: World)
    requires w.history != []
  {
    match w.writer
    case Idle => w.sequence == LATCH || Settled(w)
    case Loaded(cur, _) => w.sequence == LATCH == cur || ((w.sequence == cur || w.sequence == LATCH) && Settled(w.(sequence := cur)))
    case Storing(odd, value, k) =>
      && (w.sequence == odd || w.sequence == LATCH) && odd == 2 * |w.history| - 1 && odd < MAX_VALID_EVEN
      && w.frame[..k] == value[..k]
  }

  /** The latch is set and no publish under way will store a sequence over it. */
  ghost predicate Latched(w: World) {
    w.sequence == LATCH && (w.writer.Idle? || (w.writer.Loaded? && w.writer.cur + 1 >= MAX_VALID_EVEN))
  }

  /** The observation is the frame of one completed publish, no older than the read. */
  ghost predicate Genuine(history: seq<Frame>, since: nat, o: Observation) {
    exists i: nat :: i < |history| && o == Observation(2 * i, history[i]) && since <= i + 1
  }

  /** As long as the sequence stands where a reader found it, what the reader copied is the last frame. */
  ghost predicate ReaderSound(w: World, reader: Reader)
    requires w.history != []
  {
    match reader
    case Resting => true
    case Unavailable => true
    case Starting(since, _) => since <= |w.history|
    case Copying(since, _, seq1, got) =>
      && since <= |w.history| && seq1 % 2 == 0 && seq1 <= 2 * (|w.history| - 1) && |got| <= FIELDS
      && (w.sequence == seq1 ==> Settled(w) && got == w.frame[..|got|])
    case Returned(since, seen) => Genuine(w.history, since, seen)
  }

  ghost predicate Sound(w: World) {
    && w.history != [] && w.sequence <= U64_MAX && WriterSound(w)
    && (forall r :: 0 <= r < |w.readers| ==> ReaderSound(w, w.readers[r]))
  }

  ghost predicate Boot(w: World) {
    && w.sequence == 0 && w.frame == INITIAL && w.writer == Idle && w.history == [INITIAL]
    && forall r :: 0 <= r < |w.readers| ==> w.readers[r] == Resting
  }

  /** A reader is not disturbed by a step after which the sequence is odd, higher than before, or untouched. */
  lemma WriterKeepsReaders(w: World, v: World, reader: Reader)
    requires Sound(w) && ReaderSound(w, reader) && v.history != [] && w.history <= v.history
    requires v.sequence % 2 == 0 && v.sequence <= 2 * (|w.history| - 1) ==>
      v.sequence == w.sequence && v.history == w.history && v.frame == w.frame
    ensures ReaderSound(v, reader)
  {
    if reader.Returned? {
      var i: nat :| i < |w.history| && reader.seen == Observation(2 * i, w.history[i]) && reader.since <= i + 1;
      assert v.history[i] == w.history[i];
    }
  }

  lemma WriteIsSound(w: World)
    requires Sound(w) && !w.writer.Idle?
    ensures Sound(WriteNext(w)) && w.history <= WriteNext(w).history
    ensures Latched(w) ==> Latched(WriteNext(w))
  {
    var v := WriteNext(w);
    if w.writer.Storing? {
      var value, k := w.writer.value, w.writer.k;
      if k < FIELDS {
        assert v.frame[..k + 1] == w.frame[..k] + [value[k]] == value[..k + 1];
      } else {
        assert w.frame == w.frame[..k] == value[..k] == value;
      }
    }
    forall r | 0 <= r < |v.readers| ensures ReaderSound(v, v.readers[r]) {
      WriterKeepsReaders(w, v, v.readers[r]);
    }
  }

  /** A read that finds the sequence unchanged returns the last frame. */
  lemma ReadIsSound(w: World, reader: Reader)
    requires Sound(w) && (reader.Starting? || reader.Copying?) && ReaderSound(w, reader)
    ensures ReaderSound(w, ReadNext(w, reader))
    ensures w.sequence == LATCH ==> !ReadNext(w, reader).Returned?
  {
    if reader.Copying? {
      if |reader.got| < FIELDS {
        var k := |reader.got|;
        assert w.frame[..k + 1] == w.frame[..k] + [w.frame[k]];
      } else if w.sequence == reader.seq1 {
        assert reader.got == w.frame;
        assert w.history[|w.history| - 1] == reader.got;
      }
    }
  }

  /** Every step keeps the invariant, a latch beside a publish included; an undisturbed latch is final. */
  lemma StepIsSound(w: World, s: Step)
    requires Sound(w) && Allowed(w, s)
    ensures var v := Apply(w, s);
      && Sound(v) && w.history <= v.history && |w.readers| == |v.readers|
      && (Latched(w) ==> Latched(v))
      && (Latched(w) ==> forall r :: 0 <= r < |v.readers| && v.readers[r].Returned? ==> v.readers[r] == w.readers[r])
  {
    hide Genuine;
    match s
    case Write => WriteIsSound(w);
    case Advance(r) => ReadIsSound(w, w.readers[r]);
    case Publish(_) => PublishIsSound(w, s);
    case Latch => PublishIsSound(w, s);
    case Read(_) =>
  }

  /** Starting a publish and setting the latch disturb no reader. */
  lemma PublishIsSound(w: World, s: Step)
    requires Sound(w) && Allowed(w, s) && (s.Publish? || s.Latch?)
    ensures Sound(Apply(w, s)) && (Latched(w) ==> Latched(Apply(w, s)))
  {
    hide Genuine;
    var v := Apply(w, s);
    forall r | 0 <= r < |v.readers| ensures ReaderSound(v, v.readers[r]) {
      WriterKeepsReaders(w, v, v.readers[r]);
    }
  }

  // ---------------------------------------------------------------- whole runs

  ghost predicate IsRun(ws: seq<World>, ss: seq<Step>) {
    && |ws| == |ss| + 1
    && forall i {:trigger ss[i]} :: 0 <= i < |ss| ==> Allowed(ws[i], ss[i]) && ws[i + 1] == Apply(ws[i], ss[i])
  }

  lemma {:induction false} RunIsSound(ws: seq<World>, ss: seq<Step>, i: nat, j: nat)
    requires IsRun(ws, ss) && Sound(ws[0]) && i <= j < |ws|
    ensures Sound(ws[i]) && Sound(ws[j]) && ws[i].history <= ws[j].history
    ensures |ws[i].readers| == |ws[j].readers|
    ensures Latched(ws[i]) ==> Latched(ws[j])
    decreases j
  {
    if j > 0 {
      RunIsSound(ws, ss, if i < j then i else j - 1, j - 1);
      assert ws[j] == Apply(ws[j - 1], ss[j - 1]);
      StepIsSound(ws[j - 1], ss[j - 1]);
    }
  }

  /**
   Whatever the interleaving, a successful read returns the frame of one completed publish (or the
   initial one), with twice the number of publishes up to it, and not one replaced before the read began.
   */
  lemma ReadsAreGenuine(ws: seq<World>, ss: seq<Step>, i: nat, r: nat)
    requires IsRun(ws, ss) && Boot(ws[0]) && i < |ws| && r < |ws[i].readers| && ws[i].readers[r].Returned?
    ensures Genuine(ws[i].history, ws[i].readers[r].since, ws[i].readers[r].seen)
    ensures ws[i].sequence <= U64_MAX
  {
    RunIsSound(ws, ss, 0, i);
  }

  /** A read that begins after another one returned does not see an older frame, and sees the same one under the same sequence. */
  lemma ReadsNeverGoBack(ws: seq<World>, ss: seq<Step>, i: nat, a: nat, j: nat, b: nat)
    requires IsRun(ws, ss) && Boot(ws[0]) && i <= j < |ws| && a < |ws[i].readers| && b < |ws[j].readers|
    requires ws[i].readers[a].Returned? && ws[j].readers[b].Returned? && |ws[i].history| <= ws[j].readers[b].since
    ensures ws[i].readers[a].seen.sequence <= ws[j].readers[b].seen.sequence
    ensures ws[i].readers[a].seen.sequence == ws[j].readers[b].seen.sequence ==> ws[i].readers[a].seen == ws[j].readers[b].seen
  {
    RunIsSound(ws, ss, i, j);
    assert Genuine(ws[i].history, ws[i].readers[a].since, ws[i].readers[a].seen);
    assert Genuine(ws[j].history, ws[j].readers[b].since, ws[j].readers[b].seen);
  }

  /** Once the terminal latch is set and no publish can store over it, no read returns an observation any more. */
  lemma {:induction false} NoReadAfterLatch(ws: seq<World>, ss: seq<Step>, i: nat, j: nat, r: nat)
    requires IsRun(ws, ss) && Boot(ws[0]) && i <= j < |ws| && Latched(ws[i])
    requires r < |ws[j].readers| && ws[j].readers[r].Returned?
    ensures r < |ws[i].readers| && ws[j].readers[r] == ws[i].readers[r]
    decreases j
  {
    RunIsSound(ws, ss, i, j);
    if i < j {
      RunIsSound(ws, ss, i, j - 1);
      assert ws[j] == Apply(ws[j - 1], ss[j - 1]);
      StepIsSound(ws[j - 1], ss[j - 1]);
      NoReadAfterLatch(ws, ss, i, j - 1, r);
    }
  }

  // ---------------------------------------------------------------- latching beside the writer

  /** Runs a publish in progress to its end. */
  ghost function Finish(w: World): World
    decreases match w.writer case Idle => 0 case Loaded(_, _) => FIELDS + 2 case Storing(_, _, k) => FIELDS + 1 - k
  {
    if w.writer.Idle? then w else Finish(WriteNext(w))
  }

  lemma {:induction false} FinishStoring(w: World)
    requires w.writer.Storing?
    ensures Finish(w).sequence == w.writer.odd + 1
    decreases FIELDS - w.writer.k
  {
    if w.writer.k < FIELDS {
      FinishStoring(WriteNext(w));
    }
  }

  /** A latch outlasts the publish under way exactly when there is none that will still store a sequence. */
  lemma LatchSurvivesExactly(w: World)
    requires Sound(w) && w.sequence == LATCH
    ensures Finish(w).sequence == LATCH <==> Latched(w)
  {
    match w.writer
    case Idle =>
    case Storing(_, _, _) => FinishStoring(w);
    case Loaded(cur, value) =>
      var x := WriteNext(w);
      if x.writer.Storing? {
        FinishStoring(x);
      }
  }

  /** A run from boot in which a latch beside a publish is overwritten by it. */
  lemma LatchIsOverwritten(w: World, v: Frame) returns (ws: seq<World>, ss: seq<Step>)
    requires Boot(w)
    ensures |ws| == 11 && IsRun(ws, ss) && ws[0] == w
    ensures ws[3].sequence == LATCH && ws[10].sequence == 2 && ws[10].writer.Idle? && ws[10].history == [INITIAL, v]
  {
    var begun := Apply(Apply(w, Publish(v)), Write);
    assert begun.writer == Storing(1, v, 0);
    var latched := Apply(begun, Latch);
    var rest := WriteOut(latched);
    ws := [w, Apply(w, Publish(v)), begun] + rest;
    ss := [Publish(v), Write, Latch, Write, Write, Write, Write, Write, Write, Write];
    forall i | 0 <= i < |ss| ensures Allowed(ws[i], ss[i]) && ws[i + 1] == Apply(ws[i], ss[i]) {
      assert i >= 3 ==> ws[i] == rest[i - 3] && ws[i + 1] == rest[i - 2];
    }
  }

  /** The stores of a publish that has just begun, one world after the other. */
  lemma WriteOut(w: World) returns (ws: seq<World>)
    requires w.writer.Storing? && w.writer.k == 0
    ensures |ws| == FIELDS + 2 && ws[0] == w
    ensures forall i {:trigger ws[i]} :: 0 <= i <= FIELDS ==> !ws[i].writer.Idle? && ws[i + 1] == WriteNext(ws[i])
    ensures ws[FIELDS + 1].sequence == w.writer.odd + 1 && ws[FIELDS + 1].writer.Idle?
    ensures ws[FIELDS + 1].history == w.history + [w.writer.value]
  {
    ws := [w];
    for k := 0 to FIELDS
      invariant |ws| == k + 1 && ws[0] == w && ws[k].history == w.history
      invariant ws[k].writer == Storing(w.writer.odd, w.writer.value, k)
      invariant forall i {:trigger ws[i]} :: 0 <= i < k ==> !ws[i].writer.Idle? && ws[i + 1] == WriteNext(ws[i])
    {
      ws := ws + [WriteNext(ws[k])];
    }
    ws := ws + [WriteNext(ws[FIELDS])];
  }

  // ---------------------------------------------------------------- age of an observation

  datatype Verdict = Fresh | Regression | NoAuthority | Stale

  const MAX_AGE_MS := 50

  function EvaluateFreshness(captured: nat, frequency: nat, now: nat): Verdict {
    if now < captured then Regression
    else if frequency == 0 then NoAuthority
    else
      var product := (now - captured) * 1000;
      var age := if product > U64_MAX then U64_MAX else product / frequency;
      if age > MAX_AGE_MS then Stale else Fresh
  }

  /** Fresh means less than 51 ms old, and exactly that unless the product overflows. */
  lemma FreshIsYoung(captured: nat, frequency: nat, now: nat)
    ensures EvaluateFreshness(captured, frequency, now) == Fresh
      <==> captured <= now && (now - captured) * 1000 < (MAX_AGE_MS + 1) * frequency && (now - captured) * 1000 <= U64_MAX
  {
    if captured <= now && frequency > 0 {
      QuotientBelow((now - captured) * 1000, frequency, MAX_AGE_MS);
    }
  }

  lemma QuotientBelow(p: nat, f: nat, k: nat)
    requires f > 0
    ensures p / f <= k <==> p < (k + 1) * f
  {
    var q := p / f;
    assert p == q * f + p % f;
    if q <= k {
      ProductGrows(q, k, f);
    } else {
      ProductGrows(k + 1, q, f);
    }
  }

  lemma ProductGrows(a: nat, b: nat, f: nat)
    requires a <= b
    ensures a * f <= b * f
  {
  }
}
