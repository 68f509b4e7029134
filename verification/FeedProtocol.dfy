/**
 * AtomicFeedStore under every interleaving: posts that enqueue or overflow, the worker, any number
 * of GET /feed calls that drain beside it, resets, and partial flushes of the worker's writer.
 *
 * A record is a token: the number of its `Add` (or of its place in the recovered buffer).  Every
 * step is one channel operation, one lock region or one file write.
 */
module FeedProtocol {
  import opened FeedFormat
  import opened FeedRecord
  import opened FeedStore
  import Json
  import opened Options
  import opened RawText
  import opened Recovery

  /** Who can have taken a record and not appended it yet; an `Adder` is a post that met a full channel. */
  datatype Proc = Worker | Reader(id: nat) | Adder(id: nat)

  /** A GET /feed call: which tokens had been accepted when it began, and whether it has seen the channel empty. */
  datatype Call = Call(before: set<nat>, drained: bool)

  /**
   * `entries`, `discarded`, `overflowed`, `written` and `direct` are history: the tokens in the buffer, those
   * dropped by resets, those whose Add met a full channel, and those the worker has passed to its
   * writer.  `mirroring` are tokens appended but not
   * written to the file yet, `ending` the readers that still owe a newline.
   */
  datatype State = State(
    data: seq<string>, chan: seq<nat>, hands: map<Proc, nat>, calls: map<nat, Call>, resets: map<nat, bool>,
    builder: string, count: int, entries: seq<nat>, discarded: seq<nat>, overflowed: set<nat>,
    mirroring: map<Proc, nat>, ending: set<nat>, file: string, buffered: string, written: seq<nat>,
    direct: set<nat>)

  datatype Step =
    | Send(record: string)
    | Overflow(p: nat, record: string)
    | Take(who: Proc)
    | Append(who: Proc)
    | Mirror(who: Proc)
    | Newline(r: nat)
    | Flush(bytes: nat)
    | Start(r: nat)
    | SeeEmpty(r: nat)
    | Return(r: nat)
    | ResetStart(p: nat)
    | ResetTake(p: nat)
    | ResetSeeEmpty(p: nat)
    | ResetClear(p: nat)

  predicate Known(data: seq<string>, tokens: seq<nat>) {
    forall i :: 0 <= i < |tokens| ==> tokens[i] < |data|
  }

  function Datas(data: seq<string>, tokens: seq<nat>): (ds: seq<string>)
    requires Known(data, tokens)
    ensures |ds| == |tokens|
  {
    seq(|tokens|, i requires 0 <= i < |tokens| => data[tokens[i]])
  }

  function Tokens(n: nat): (ts: seq<nat>)
    ensures |ts| == n && forall i :: 0 <= i < n ==> ts[i] == i
  {
    seq(n, i => i)
  }

  /** The state that start-up leaves: the recovered records in the buffer, the file as it was found. */
  function StartUp(recovered: seq<string>, file: string): State {
    State(recovered, [], map[], map[], map[], BuilderOf(recovered), |recovered|, Tokens(|recovered|), [],
          {}, map[], {}, file, "", [], {})
  }

  /** A drainer between two records: it may take the next one. */
  predicate Free(s: State, who: Proc) {
    && who !in s.hands && who !in s.mirroring
    && (who.Worker? || (who.Reader? && who.id in s.calls && !s.calls[who.id].drained && who.id !in s.ending))
  }

  /** Tokens whose Add has returned (or that were recovered), and that no reset has dropped. */
  function Accepted(s: State): set<nat> {
    set t | 0 <= t < |s.data| && t !in s.discarded && (forall p :: p in s.hands && s.hands[p] == t ==> !p.Adder?)
  }

  predicate Enabled(s: State, step: Step) {
    match step
    case Send(_) => |s.chan| < CHAN_CAP
    case Overflow(p, _) => |s.chan| >= CHAN_CAP && Adder(p) !in s.hands
    case Take(who) => s.chan != [] && Free(s, who)
    case Append(who) => who in s.hands && s.hands[who] < |s.data|
    case Mirror(who) => who in s.mirroring && s.mirroring[who] < |s.data| && !who.Adder?
    case Newline(r) => r in s.ending
    case Flush(bytes) => bytes <= |s.buffered|
    case Start(r) => r !in s.calls && Reader(r) !in s.hands && Reader(r) !in s.mirroring && r !in s.ending
    case SeeEmpty(r) => s.chan == [] && Free(s, Reader(r))
    case Return(r) => r in s.calls && s.calls[r].drained
    case ResetStart(p) => p !in s.resets
    case ResetTake(p) => p in s.resets && !s.resets[p] && s.chan != []
    case ResetSeeEmpty(p) => p in s.resets && !s.resets[p] && s.chan == []
    case ResetClear(p) => p in s.resets && s.resets[p]
  }

  function SendRecord(s: State, record: string): State {
    s.(data := s.data + [record], chan := s.chan + [|s.data|])
  }

  function OverflowRecord(s: State, p: nat, record: string): State {
    s.(data := s.data + [record], hands := s.hands[Adder(p) := |s.data|], overflowed := s.overflowed + {|s.data|})
  }

  function TakeRecord(s: State, who: Proc): State
    requires s.chan != []
  {
    s.(chan := s.chan[1..], hands := s.hands[who := s.chan[0]])
  }

  function AppendRecord(s: State, who: Proc): State
    requires who in s.hands && s.hands[who] < |s.data|
  {
    var t := s.hands[who];
    s.(builder := AppendEntry(s.builder, s.data[t]), count := s.count + 1, entries := s.entries + [t],
       hands := s.hands - {who}, mirroring := if who.Adder? then s.mirroring else s.mirroring[who := t])
  }

  /** The worker writes through its buffer, a reader straight to the file, newline apart. */
  function MirrorRecord(s: State, who: Proc): State
    requires who in s.mirroring && s.mirroring[who] < |s.data| && !who.Adder?
  {
    var t := s.mirroring[who];
    if who.Worker?
    then s.(buffered := s.buffered + (s.data[t] + "\n"), written := s.written + [t], mirroring := s.mirroring - {who})
    else s.(file := s.file + s.data[t], ending := s.ending + {who.id}, mirroring := s.mirroring - {who},
            direct := s.direct + {t})
  }

  function FlushBytes(s: State, bytes: nat): State
    requires bytes <= |s.buffered|
  {
    s.(file := s.file + s.buffered[..bytes], buffered := s.buffered[bytes..])
  }

  function ClearAll(s: State, p: nat): State {
    s.(builder := "", count := 0, entries := [], discarded := s.discarded + s.entries, file := "",
       resets := s.resets - {p})
  }

  function Apply(s: State, step: Step): State
    requires Enabled(s, step)
  {
    match step
    case Send(record) => SendRecord(s, record)
    case Overflow(p, record) => OverflowRecord(s, p, record)
    case Take(who) => TakeRecord(s, who)
    case Append(who) => AppendRecord(s, who)
    case Mirror(who) => MirrorRecord(s, who)
    case Newline(r) => s.(file := s.file + "\n", ending := s.ending - {r})
    case Flush(bytes) => FlushBytes(s, bytes)
    case Start(r) => s.(calls := s.calls[r := Call(Accepted(s), false)])
    case SeeEmpty(r) => s.(calls := s.calls[r := s.calls[r].(drained := true)])
    case Return(r) => s.(calls := s.calls - {r})
    case ResetStart(p) => s.(resets := s.resets[p := false])
    case ResetTake(p) => s.(chan := s.chan[1..], discarded := s.discarded + [s.chan[0]])
    case ResetSeeEmpty(p) => s.(resets := s.resets[p := true])
    case ResetClear(p) => ClearAll(s, p)
  }

  predicate Reaches(allowed: Step -> bool, s: State, steps: seq<Step>, t: State)
    decreases steps
  {
    if steps == [] then s == t
    else Enabled(s, steps[0]) && allowed(steps[0]) && Reaches(allowed, Apply(s, steps[0]), steps[1..], t)
  }

  predicate Any(step: Step) {
    true
  }

  predicate NoReset(step: Step) {
    !step.ResetStart? && !step.ResetTake? && !step.ResetSeeEmpty? && !step.ResetClear?
  }

  /** Nobody but the worker writes to the file, and nobody clears it. */
  predicate WorkerOnly(step: Step) {
    NoReset(step) && (step.Take? ==> step.who.Worker?)
  }

  // ---- Conservation --------------------------------------------------------------------------

  predicate Distinct(ts: seq<nat>) {
    forall i, j :: 0 <= i < j < |ts| ==> ts[i] != ts[j]
  }

  predicate Held(hands: map<Proc, nat>, t: nat) {
    exists p :: p in hands && hands[p] == t
  }

  /** No token twice in a list, in two lists, in a list and a hand, or in two hands. */
  ghost predicate Apart(chan: seq<nat>, hands: map<Proc, nat>, entries: seq<nat>, discarded: seq<nat>) {
    && Distinct(chan) && Distinct(entries) && Distinct(discarded)
    && (forall t :: t in chan ==> t !in entries && t !in discarded)
    && (forall t :: t in entries ==> t !in discarded)
    && (forall p :: p in hands ==> hands[p] !in chan && hands[p] !in entries && hands[p] !in discarded)
    && (forall p, q :: p in hands && q in hands && p != q ==> hands[p] != hands[q])
  }

  predicate Somewhere(chan: seq<nat>, hands: map<Proc, nat>, entries: seq<nat>, discarded: seq<nat>, t: nat) {
    t in chan || t in entries || t in discarded || Held(hands, t)
  }

  /** Each issued token is in exactly one of: channel, one drainer's hand, buffer, dropped by reset. */
  ghost predicate Conserved(s: State) {
    && Apart(s.chan, s.hands, s.entries, s.discarded)
    && (forall t: nat :: Somewhere(s.chan, s.hands, s.entries, s.discarded, t) <==> t < |s.data|)
  }

  ghost predicate BufferInv(s: State) {
    && Known(s.data, s.entries)
    && s.builder == BuilderOf(Datas(s.data, s.entries)) && s.count == |s.entries|
  }

  lemma DistinctSnoc(ts: seq<nat>, t: nat)
    requires Distinct(ts) && t !in ts
    ensures Distinct(ts + [t])
  {}

  lemma DistinctConcat(a: seq<nat>, b: seq<nat>)
    requires Distinct(a) && Distinct(b) && forall t :: t in b ==> t !in a
    ensures Distinct(a + b)
  {
    var c := a + b;
    forall i, j | 0 <= i < j < |c| ensures c[i] != c[j] {
      if i < |a| && j >= |a| {
        assert c[j] in b && c[i] in a;
      }
    }
  }

  lemma HeldUpdate(hands: map<Proc, nat>, p: Proc, t: nat)
    requires p !in hands
    ensures forall u :: Held(hands[p := t], u) <==> Held(hands, u) || u == t
  {
    var more := hands[p := t];
    forall u ensures Held(more, u) <==> Held(hands, u) || u == t {
      assert more[p] == t;
      if Held(hands, u) {
        var q :| q in hands && hands[q] == u;
        assert q in more && more[q] == u;
      }
    }
  }

  lemma HeldRemove(hands: map<Proc, nat>, p: Proc)
    requires p in hands && forall q, r :: q in hands && r in hands && q != r ==> hands[q] != hands[r]
    ensures forall u :: Held(hands - {p}, u) <==> Held(hands, u) && u != hands[p]
  {
    var less := hands - {p};
    forall u ensures Held(less, u) <==> Held(hands, u) && u != hands[p] {
      if Held(hands, u) && u != hands[p] {
        var q :| q in hands && hands[q] == u;
        assert q in less && less[q] == u;
      }
    }
  }

  lemma FirstOrLater(chan: seq<nat>, u: nat)
    requires chan != []
    ensures u in chan <==> u == chan[0] || u in chan[1..]
  {
    assert chan == [chan[0]] + chan[1..];
  }

  lemma ConservedSend(s: State, record: string)
    requires Conserved(s)
    ensures Conserved(SendRecord(s, record))
  {
    var t := SendRecord(s, record);
    assert !Somewhere(s.chan, s.hands, s.entries, s.discarded, |s.data|);
    assert forall p :: p in s.hands ==> Held(s.hands, s.hands[p]);
    DistinctSnoc(s.chan, |s.data|);
    forall u: nat ensures Somewhere(t.chan, t.hands, t.entries, t.discarded, u) <==> u < |t.data| {
      assert Somewhere(s.chan, s.hands, s.entries, s.discarded, u) <==> u < |s.data|;
    }
  }

  lemma ConservedOverflow(s: State, p: nat, record: string)
    requires Conserved(s) && Adder(p) !in s.hands
    ensures Conserved(OverflowRecord(s, p, record))
  {
    var t := OverflowRecord(s, p, record);
    assert !Somewhere(s.chan, s.hands, s.entries, s.discarded, |s.data|);
    assert forall q :: q in s.hands ==> Held(s.hands, s.hands[q]);
    HeldUpdate(s.hands, Adder(p), |s.data|);
    forall u: nat ensures Somewhere(t.chan, t.hands, t.entries, t.discarded, u) <==> u < |t.data| {
      assert Held(t.hands, u) <==> Held(s.hands, u) || u == |s.data|;
      assert Somewhere(s.chan, s.hands, s.entries, s.discarded, u) <==> u < |s.data|;
    }
  }

  lemma ConservedTake(s: State, who: Proc)
    requires Conserved(s) && s.chan != [] && who !in s.hands
    ensures Conserved(TakeRecord(s, who))
  {
    var t := TakeRecord(s, who);
    HeldUpdate(s.hands, who, s.chan[0]);
    assert s.chan == [s.chan[0]] + t.chan;
    forall u: nat ensures Somewhere(t.chan, t.hands, t.entries, t.discarded, u) <==> u < |t.data| {
      FirstOrLater(s.chan, u);
      assert Held(t.hands, u) <==> Held(s.hands, u) || u == s.chan[0];
      assert Somewhere(s.chan, s.hands, s.entries, s.discarded, u) <==> u < |s.data|;
    }
  }

  lemma ConservedAppend(s: State, who: Proc)
    requires Conserved(s) && who in s.hands && s.hands[who] < |s.data|
    ensures Conserved(AppendRecord(s, who))
  {
    var t := AppendRecord(s, who);
    HeldRemove(s.hands, who);
    DistinctSnoc(s.entries, s.hands[who]);
    assert Held(s.hands, s.hands[who]);
    forall u: nat ensures Somewhere(t.chan, t.hands, t.entries, t.discarded, u) <==> u < |t.data| {
      assert Held(t.hands, u) <==> Held(s.hands, u) && u != s.hands[who];
      assert Somewhere(s.chan, s.hands, s.entries, s.discarded, u) <==> u < |s.data|;
    }
  }

  lemma ConservedResetTake(s: State, p: nat)
    requires Conserved(s) && Enabled(s, ResetTake(p))
    ensures Conserved(Apply(s, ResetTake(p)))
  {
    var t := Apply(s, ResetTake(p));
    assert s.chan == [s.chan[0]] + t.chan;
    DistinctSnoc(s.discarded, s.chan[0]);
    forall u: nat ensures Somewhere(t.chan, t.hands, t.entries, t.discarded, u) <==> u < |t.data| {
      FirstOrLater(s.chan, u);
      assert Somewhere(s.chan, s.hands, s.entries, s.discarded, u) <==> u < |s.data|;
    }
  }

  lemma ConservedClear(s: State, p: nat)
    requires Conserved(s)
    ensures Conserved(ClearAll(s, p))
  {
    var t := ClearAll(s, p);
    DistinctConcat(s.discarded, s.entries);
    forall u: nat ensures Somewhere(t.chan, t.hands, t.entries, t.discarded, u) <==> u < |t.data| {
      assert Somewhere(s.chan, s.hands, s.entries, s.discarded, u) <==> u < |s.data|;
    }
  }

  lemma ConservedStep(s: State, step: Step)
    requires Conserved(s) && Enabled(s, step)
    ensures Conserved(Apply(s, step))
  {
    match step
    case Send(record) => ConservedSend(s, record);
    case Overflow(p, record) => ConservedOverflow(s, p, record);
    case Take(who) => ConservedTake(s, who);
    case Append(who) => ConservedAppend(s, who);
    case ResetTake(p) => ConservedResetTake(s, p);
    case ResetClear(p) => ConservedClear(s, p);
    case _ =>
  }

  lemma BufferStep(s: State, step: Step)
    requires BufferInv(s) && Enabled(s, step)
    ensures BufferInv(Apply(s, step))
  {
    var t := Apply(s, step);
    if step.Append? {
      BuilderAppend(Datas(s.data, s.entries), s.data[s.hands[step.who]]);
      assert Datas(t.data, t.entries) == Datas(s.data, s.entries) + [s.data[s.hands[step.who]]];
    } else if !step.ResetClear? {
      assert Datas(t.data, t.entries) == Datas(s.data, s.entries);
    }
  }

  lemma {:induction false} ConservedRun(s: State, steps: seq<Step>, t: State)
    requires Conserved(s) && BufferInv(s) && Reaches(Any, s, steps, t)
    ensures Conserved(t) && BufferInv(t)
    decreases steps
  {
    if steps != [] {
      ConservedStep(s, steps[0]);
      BufferStep(s, steps[0]);
      ConservedRun(Apply(s, steps[0]), steps[1..], t);
    }
  }

  lemma ConservedAtStart(recovered: seq<string>, file: string)
    ensures Conserved(StartUp(recovered, file)) && BufferInv(StartUp(recovered, file))
  {
    var s := StartUp(recovered, file);
    assert Datas(s.data, s.entries) == recovered;
    forall u: nat ensures Somewhere(s.chan, s.hands, s.entries, s.discarded, u) <==> u < |s.data| {
      if u < |recovered| { assert s.entries[u] == u; }
    }
  }

  /**
   * Under every interleaving of posts, worker, readers, resets and flushes, each accepted or
   * recovered record is at exactly one place, and the buffer is empty or `[` plus the joined
   * entries with `count` their number.
   */
  lemma Conservation(recovered: seq<string>, file: string, steps: seq<Step>, t: State)
    requires Reaches(Any, StartUp(recovered, file), steps, t)
    ensures Conserved(t) && BufferInv(t)
  {
    ConservedAtStart(recovered, file);
    ConservedRun(StartUp(recovered, file), steps, t);
  }

  // ---- What GET /feed may miss -----------------------------------------------------------------

  /** Only drainers at work hold tokens: the worker, and readers that have not seen the channel empty. */
  ghost predicate ReadersInv(s: State) {
    && s.discarded == []
    && (forall r :: Reader(r) in s.hands ==> r in s.calls && !s.calls[r].drained)
    && (forall r :: r in s.calls ==> CallInv(s, s.calls[r]))
  }

  /** What was accepted before the call is issued, held by no post, and out of the channel once that was empty. */
  ghost predicate CallInv(s: State, c: Call) {
    && (forall t :: t in c.before ==> t < |s.data|)
    && (forall p :: p in s.hands && p.Adder? ==> s.hands[p] !in c.before)
    && (c.drained ==> forall t :: t in s.chan ==> t !in c.before)
  }

  lemma ReadersStep(s: State, step: Step)
    requires ReadersInv(s) && Conserved(s) && Enabled(s, step) && NoReset(step)
    ensures ReadersInv(Apply(s, step))
  {
    var t := Apply(s, step);
    forall r | r in t.calls ensures CallInv(t, t.calls[r]) {
      if step.Start? && r == step.r {
        StartedCall(s);
      } else {
        assert CallInv(s, s.calls[r]);
        CallStep(s, step, r);
      }
    }
  }

  lemma StartedCall(s: State)
    ensures CallInv(s, Call(Accepted(s), false))
  {}

  lemma CallStep(s: State, step: Step, r: nat)
    requires Conserved(s) && Enabled(s, step) && NoReset(step) && r in s.calls && CallInv(s, s.calls[r])
    requires !(step.Start? && step.r == r) && r in Apply(s, step).calls
    ensures CallInv(Apply(s, step), Apply(s, step).calls[r])
  {
    if step.Take? {
      assert s.chan[0] in s.chan;
    }
  }

  lemma {:induction false} ReadersRun(s: State, steps: seq<Step>, t: State)
    requires ReadersInv(s) && Conserved(s) && Reaches(NoReset, s, steps, t)
    ensures ReadersInv(t) && Conserved(t)
    decreases steps
  {
    if steps != [] {
      ReadersStep(s, steps[0]);
      ConservedStep(s, steps[0]);
      ReadersRun(Apply(s, steps[0]), steps[1..], t);
    }
  }

  /** What the call r returns without, although it was accepted before the call. */
  function Missing(s: State, r: nat): set<nat>
    requires r in s.calls
  {
    set t | t in s.calls[r].before && t !in s.entries
  }

  /** Who else can be holding a record while the call r returns. */
  function OtherDrainers(s: State, r: nat): set<Proc> {
    {Worker} + set q | q in s.calls && q != r :: Reader(q)
  }

  function HeldTokens(hands: map<Proc, nat>, who: set<Proc>): set<nat> {
    set p | p in who && p in hands :: hands[p]
  }

  lemma {:induction false} HeldTokensFew(hands: map<Proc, nat>, who: set<Proc>)
    ensures |HeldTokens(hands, who)| <= |who|
    decreases who
  {
    if who != {} {
      var p :| p in who;
      HeldTokensFew(hands, who - {p});
      var fewer := HeldTokens(hands, who - {p});
      if p in hands {
        assert HeldTokens(hands, who) == fewer + {hands[p]};
      } else {
        assert HeldTokens(hands, who) == fewer;
      }
    }
  }

  lemma {:induction false} ReaderIds(qs: set<nat>)
    ensures |set q | q in qs :: Reader(q)| == |qs|
    decreases qs
  {
    if qs != {} {
      var q0 :| q0 in qs;
      ReaderIds(qs - {q0});
      assert (set q | q in qs :: Reader(q)) == (set q | q in qs - {q0} :: Reader(q)) + {Reader(q0)};
    }
  }

  lemma OtherDrainersCount(s: State, r: nat)
    requires r in s.calls
    ensures |OtherDrainers(s, r)| == |s.calls|
  {
    var others := s.calls.Keys - {r};
    ReaderIds(others);
    assert OtherDrainers(s, r) == {Worker} + set q | q in others :: Reader(q);
    assert |s.calls.Keys| == |s.calls|;
  }

  lemma MissingIsHeld(s: State, r: nat)
    requires ReadersInv(s) && Conserved(s) && Enabled(s, Return(r))
    ensures Missing(s, r) == HeldTokens(s.hands, OtherDrainers(s, r)) * s.calls[r].before
  {
    assert CallInv(s, s.calls[r]);
    forall t | t in Missing(s, r) ensures t in HeldTokens(s.hands, OtherDrainers(s, r)) {
      assert Somewhere(s.chan, s.hands, s.entries, s.discarded, t);
      var p :| p in s.hands && s.hands[p] == t;
      assert p in OtherDrainers(s, r);
    }
  }

  /**
   * GET /feed without resets: when the call returns, what it misses of the records accepted before
   * it began is exactly what other drainers hold in hand; so at most one record for the worker and
   * one for each other call under way, and nothing at all if nobody else holds one.
   */
  lemma FeedCompleteness(recovered: seq<string>, file: string, steps: seq<Step>, s: State, r: nat)
    requires Reaches(NoReset, StartUp(recovered, file), steps, s) && Enabled(s, Return(r))
    ensures BufferInv(s) && FeedText(s.builder) == FeedText(BuilderOf(Datas(s.data, s.entries)))
    ensures Missing(s, r) == HeldTokens(s.hands, OtherDrainers(s, r)) * s.calls[r].before
    ensures |Missing(s, r)| <= |s.calls|
    ensures HeldTokens(s.hands, OtherDrainers(s, r)) == {} ==> forall t :: t in s.calls[r].before ==> t in s.entries
  {
    ConservedAtStart(recovered, file);
    NoResetIsAny(StartUp(recovered, file), steps, s);
    ConservedRun(StartUp(recovered, file), steps, s);
    ReadersRun(StartUp(recovered, file), steps, s);
    MissingIsHeld(s, r);
    HeldTokensFew(s.hands, OtherDrainers(s, r));
    OtherDrainersCount(s, r);
    SubsetSmaller(Missing(s, r), HeldTokens(s.hands, OtherDrainers(s, r)));
    forall t | t in s.calls[r].before && HeldTokens(s.hands, OtherDrainers(s, r)) == {} ensures t in s.entries {
      assert t !in Missing(s, r);
    }
  }

  lemma SubsetSmaller(a: set<nat>, b: set<nat>)
    requires a <= b
    ensures |a| <= |b|
  {
    assert b == a + (b - a);
  }

  lemma {:induction false} NoResetIsAny(s: State, steps: seq<Step>, t: State)
    requires Reaches(NoReset, s, steps, t)
    ensures Reaches(Any, s, steps, t)
    decreases steps
  {
    if steps != [] {
      NoResetIsAny(Apply(s, steps[0]), steps[1..], t);
    }
  }

  /** Before a reset, `Accepted` is everything that is queued, buffered or in a drainer's hand. */
  lemma AcceptedMeaning(s: State, t: nat)
    requires Conserved(s) && s.discarded == []
    ensures t in Accepted(s) <==>
            t in s.chan || t in s.entries || exists p :: p in s.hands && s.hands[p] == t && !p.Adder?
  {
    assert Somewhere(s.chan, s.hands, s.entries, s.discarded, t) <==> t < |s.data|;
  }

  lemma ReachesCons(allowed: Step -> bool, s: State, step: Step, rest: seq<Step>, t: State)
    requires Enabled(s, step) && allowed(step) && Reaches(allowed, Apply(s, step), rest, t)
    ensures Reaches(allowed, s, [step] + rest, t)
  {
    assert ([step] + rest)[1..] == rest;
  }

  /** The bound is met: with the worker holding the only record, a later call returns an empty feed. */
  lemma FeedMayMissAccepted(record: string) returns (steps: seq<Step>, s: State)
    ensures Reaches(NoReset, StartUp([], ""), steps, s) && Enabled(s, Return(0))
    ensures s.calls[0].before == {0} && s.data == [record] && FeedText(s.builder) == "[]"
  {
    var s2 := WorkerHolds(record);
    s := EmptyRead(s2);
    var rest := [Start(0)] + ([SeeEmpty(0)] + []);
    var s1 := Apply(StartUp([], ""), Send(record));
    ReachesCons(NoReset, s1, Take(Worker), rest, s);
    ReachesCons(NoReset, StartUp([], ""), Send(record), [Take(Worker)] + rest, s);
    steps := [Send(record)] + ([Take(Worker)] + rest);
  }

  /** A call that begins and at once finds the channel empty. */
  lemma EmptyRead(s: State) returns (t: State)
    requires s.calls == map[] && s.chan == [] && s.ending == {} && Reader(0) !in s.hands && Reader(0) !in s.mirroring
    ensures Reaches(NoReset, s, [Start(0)] + ([SeeEmpty(0)] + []), t)
    ensures t == s.(calls := map[0 := Call(Accepted(s), true)])
  {
    var s1 := Apply(s, Start(0));
    t := Apply(s1, SeeEmpty(0));
    ReachesCons(NoReset, s1, SeeEmpty(0), [], t);
    ReachesCons(NoReset, s, Start(0), [SeeEmpty(0)] + [], t);
  }

  lemma WorkerHolds(record: string) returns (s: State)
    ensures Enabled(StartUp([], ""), Send(record))
    ensures var s1 := Apply(StartUp([], ""), Send(record)); Enabled(s1, Take(Worker)) && s == Apply(s1, Take(Worker))
    ensures s.hands == map[Worker := 0] && s.data == [record] && s.chan == [] && Accepted(s) == {0}
    ensures s.calls == map[] && s.builder == "" && s.mirroring == map[] && s.ending == {}
  {
    var s1 := Apply(StartUp([], ""), Send(record));
    s := Apply(s1, Take(Worker));
  }

  // ---- A crash while the worker is the only one to write -----------------------------------------

  /** File and writer buffer together are the journal of what the worker wrote, which is in the feed too. */
  ghost predicate FileInv(s: State, base: string) {
    && Known(s.data, s.written) && Distinct(s.written)
    && s.file + s.buffered == base + Journal(Datas(s.data, s.written))
    && (forall t :: t in s.written ==> t in s.entries)
    && (forall p :: p in s.mirroring ==> p.Worker? && s.mirroring[p] in s.entries && s.mirroring[p] !in s.written)
    && (forall r :: Reader(r) !in s.hands) && s.ending == {}
  }

  lemma FileMirror(s: State, base: string)
    requires FileInv(s, base) && Enabled(s, Mirror(Worker))
    ensures FileInv(MirrorRecord(s, Worker), base)
  {
    var t := MirrorRecord(s, Worker);
    var token := s.mirroring[Worker];
    assert Datas(t.data, t.written) == Datas(s.data, s.written) + [s.data[token]];
    JournalAppend(Datas(s.data, s.written), s.data[token]);
    var j, line := Journal(Datas(s.data, s.written)), s.data[token] + "\n";
    assert s.file + (s.buffered + line) == (s.file + s.buffered) + line == (base + j) + line == base + (j + line);
    DistinctSnoc(s.written, token);
  }

  lemma FileAppend(s: State, base: string, who: Proc)
    requires FileInv(s, base) && Conserved(s) && Enabled(s, Append(who)) && (who.Worker? ==> who !in s.mirroring)
    ensures FileInv(AppendRecord(s, who), base)
  {
    var t := AppendRecord(s, who);
    assert forall u :: u in s.entries ==> u in t.entries;
    assert t.entries[|s.entries|] == s.hands[who];
  }

  /** A drainer appends before it takes again, so no hand is full while its last record is being mirrored. */
  ghost predicate OneAtATime(s: State) {
    forall p :: p in s.hands ==> p !in s.mirroring
  }

  lemma FileStep(s: State, step: Step, base: string)
    requires FileInv(s, base) && Conserved(s) && OneAtATime(s) && Enabled(s, step) && WorkerOnly(step)
    ensures FileInv(Apply(s, step), base) && OneAtATime(Apply(s, step))
  {
    var t := Apply(s, step);
    if step.Mirror? {
      assert step.who in s.mirroring;
      FileMirror(s, base);
    } else if step.Append? {
      FileAppend(s, base, step.who);
    } else if step.Flush? {
      assert t.file + t.buffered == s.file + s.buffered;
    } else {
      assert Datas(t.data, t.written) == Datas(s.data, s.written);
    }
  }

  lemma {:induction false} FileRun(s: State, steps: seq<Step>, t: State, base: string)
    requires FileInv(s, base) && Conserved(s) && OneAtATime(s) && Reaches(WorkerOnly, s, steps, t)
    ensures FileInv(t, base) && Conserved(t) && OneAtATime(t)
    decreases steps
  {
    if steps != [] {
      FileStep(s, steps[0], base);
      ConservedStep(s, steps[0]);
      FileRun(Apply(s, steps[0]), steps[1..], t, base);
    }
  }

  function RecordsAt(recs: seq<FeedMessage>, tokens: seq<nat>): seq<FeedMessage>
    requires forall i :: 0 <= i < |tokens| ==> tokens[i] < |recs|
  {
    if tokens == [] then [] else [recs[tokens[0]]] + RecordsAt(recs, tokens[1..])
  }

  lemma {:induction false} DatasAreRenders(data: seq<string>, recs: seq<FeedMessage>, tokens: seq<nat>)
    requires data == Renders(recs) && Known(data, tokens)
    ensures Datas(data, tokens) == Renders(RecordsAt(recs, tokens))
    decreases tokens
  {
    if tokens != [] {
      DatasAreRenders(data, recs, tokens[1..]);
      RenderOf(recs, tokens[0]);
      assert Datas(data, tokens) == [data[tokens[0]]] + Datas(data, tokens[1..]);
      assert ([recs[tokens[0]]] + RecordsAt(recs, tokens[1..]))[1..] == RecordsAt(recs, tokens[1..]);
    }
  }

  lemma {:induction false} RecordsAtPlain(recs: seq<FeedMessage>, tokens: seq<nat>)
    requires AllPlain(recs) && forall i :: 0 <= i < |tokens| ==> tokens[i] < |recs|
    ensures AllPlain(RecordsAt(recs, tokens))
    decreases tokens
  {
    if tokens != [] {
      RecordsAtPlain(recs, tokens[1..]);
      var all := RecordsAt(recs, tokens);
      assert Plain(recs[tokens[0]].id);
      forall i | 0 <= i < |all| ensures Plain(all[i].id) {
        assert all[i] == if i == 0 then recs[tokens[0]] else RecordsAt(recs, tokens[1..])[i - 1];
      }
    }
  }

  lemma {:induction false} JournalConcat(a: seq<string>, b: seq<string>)
    ensures Journal(a + b) == Journal(a) + Journal(b)
    decreases a
  {
    if a == [] {
      assert a + b == b;
    } else {
      assert (a + b)[1..] == a[1..] + b;
      JournalConcat(a[1..], b);
      assert a[0] + ("\n" + (Journal(a[1..]) + Journal(b))) == a[0] + ("\n" + Journal(a[1..])) + Journal(b);
    }
  }

  lemma {:induction false} RendersConcat(a: seq<FeedMessage>, b: seq<FeedMessage>)
    ensures Renders(a + b) == Renders(a) + Renders(b)
    decreases a
  {
    if a == [] {
      assert a + b == b;
    } else {
      assert (a + b)[1..] == a[1..] + b;
      RendersConcat(a[1..], b);
    }
  }

  lemma AllPlainConcat(a: seq<FeedMessage>, b: seq<FeedMessage>)
    requires AllPlain(a) && AllPlain(b)
    ensures AllPlain(a + b)
  {}

  /** What the file holds after a run in which only the worker drains: a prefix of the longer journal. */
  lemma WorkerFile(earlier: seq<FeedMessage>, recs: seq<FeedMessage>, recovered: seq<string>, steps: seq<Step>, s: State)
    requires Reaches(WorkerOnly, StartUp(recovered, Journal(Renders(earlier))), steps, s) && s.data == Renders(recs)
    ensures Known(s.data, s.written) && Distinct(s.written) && forall t :: t in s.written ==> t in s.entries
    ensures s.file + s.buffered == Journal(Renders(earlier + RecordsAt(recs, s.written)))
    ensures s.file <= Journal(Renders(earlier + RecordsAt(recs, s.written)))
  {
    hide Reaches, Render;
    var base := Journal(Renders(earlier));
    var s0 := StartUp(recovered, base);
    ConservedAtStart(recovered, base);
    assert Datas(s0.data, s0.written) == [] && base + "" == base;
    FileRun(s0, steps, s, base);
    DatasAreRenders(s.data, recs, s.written);
    RendersConcat(earlier, RecordsAt(recs, s.written));
    JournalConcat(Renders(earlier), Renders(RecordsAt(recs, s.written)));
    assert (s.file + s.buffered)[..|s.file|] == s.file;
  }

  /**
   * A crash at any moment of any interleaving in which only the worker drains, after a start-up on a
   * journal that ends at a line boundary (an empty one at first) and with plain ids posted: the file
   * is a prefix of that journal and of what the worker wrote since, all of which the feed held; the
   * next start-up recovers exactly the readable records wholly in the file, each key once, and serves
   * them.
   */
  lemma CrashRecovery(earlier: seq<FeedMessage>, recs: seq<FeedMessage>, steps: seq<Step>, s: State, entries: seq<string>)
    requires var file := Journal(Renders(earlier));
             Reaches(WorkerOnly, StartUp(RecoverLines(Scan(file), {}), file), steps, s)
    requires AllPlain(earlier) && AllPlain(recs) && s.data == Renders(recs) && entries == RecoverLines(Scan(s.file), {})
    ensures Known(s.data, s.written) && Distinct(s.written) && forall t :: t in s.written ==> t in s.entries
    ensures var kept := Kept(earlier + RecordsAt(recs, s.written), |s.file|);
            entries == Renders(kept) && Json.Parse(FeedText(BuilderOf(entries))) == Some(Json.Arr(ToJsons(AsReads(kept))))
    ensures s.buffered == "" ==> s.file == Journal(Renders(earlier + RecordsAt(recs, s.written)))
  {
    hide Reaches, Journal, Kept, Render, AllPlain, RecoverLines, Scan;
    WorkerFile(earlier, recs, RecoverLines(Scan(Journal(Renders(earlier))), {}), steps, s);
    RecordsAtPlain(recs, s.written);
    AllPlainConcat(earlier, RecordsAt(recs, s.written));
    RecoveredFeed(earlier + RecordsAt(recs, s.written), s.file, entries);
    if s.buffered == "" {
      assert s.file + s.buffered == s.file;
    }
  }
}
