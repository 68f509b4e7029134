/**
 * Which records reach the backup file: exactly those whose Add found room in the channel, whoever
 * drains and whatever is reset.
 */
module FeedMirror {
  import opened FeedFormat
  import opened FeedProtocol
  import opened FeedStore
  import opened Options

  /** Some drainer is between the buffer and the file with this token. */
  predicate InTransit(s: State, t: nat) {
    exists p :: p in s.mirroring && s.mirroring[p] == t
  }

  /** The worker has passed the token to its writer, or a reader has written it to the file. */
  predicate Mirrored(s: State, t: nat) {
    t in s.written || t in s.direct
  }

  /** The token was issued, and not to a post that met a full channel. */
  predicate Admitted(s: State, t: nat) {
    t < |s.data| && t !in s.overflowed
  }

  /**
   * Overflowed tokens are in posts' own hands only; what a drainer has appended it writes next. The
   * first `n` tokens were recovered.
   */
  ghost predicate MirrorInv(s: State, n: nat) {
    && n <= |s.data| && (forall t :: t in s.overflowed ==> n <= t < |s.data|)
    && (forall t :: t in s.chan ==> Admitted(s, t))
    && (forall p :: p in s.hands ==> s.hands[p] < |s.data| && (p.Adder? <==> s.hands[p] in s.overflowed))
    && OneAtATime(s) && (forall p :: p in s.mirroring ==> !p.Adder? && Admitted(s, s.mirroring[p]))
    && (forall t :: Mirrored(s, t) ==> Admitted(s, t))
    && (forall t :: t in s.entries ==> t < |s.data|)
    && (forall t :: t in s.entries && t >= n && t !in s.overflowed ==> Mirrored(s, t) || InTransit(s, t))
  }

  lemma MirrorSend(s: State, n: nat, record: string)
    requires MirrorInv(s, n)
    ensures MirrorInv(SendRecord(s, record), n)
  {
    var t := SendRecord(s, record);
    assert forall u :: u in t.chan ==> u in s.chan || u == |s.data|;
    assert forall u :: Mirrored(t, u) <==> Mirrored(s, u);
    assert forall u :: InTransit(s, u) ==> InTransit(t, u);
  }

  lemma MirrorOverflow(s: State, n: nat, p: nat, record: string)
    requires MirrorInv(s, n) && Adder(p) !in s.hands
    ensures MirrorInv(OverflowRecord(s, p, record), n)
  {
    var t := OverflowRecord(s, p, record);
    assert forall u :: Admitted(s, u) ==> Admitted(t, u);
    assert forall u :: Mirrored(t, u) <==> Mirrored(s, u);
    assert forall u :: InTransit(s, u) ==> InTransit(t, u);
  }

  lemma MirrorTake(s: State, n: nat, who: Proc)
    requires MirrorInv(s, n) && s.chan != [] && who !in s.hands && who !in s.mirroring && !who.Adder?
    ensures MirrorInv(TakeRecord(s, who), n)
  {
    var t := TakeRecord(s, who);
    assert s.chan[0] in s.chan && Admitted(s, s.chan[0]);
    assert forall u :: u in s.chan[1..] ==> u in s.chan;
    assert forall u :: Admitted(s, u) <==> Admitted(t, u);
    assert forall u :: Mirrored(t, u) <==> Mirrored(s, u);
    assert forall u :: InTransit(s, u) ==> InTransit(t, u);
  }

  lemma MirrorAppend(s: State, n: nat, who: Proc)
    requires MirrorInv(s, n) && Enabled(s, Append(who))
    ensures MirrorInv(AppendRecord(s, who), n)
  {
    var t, u := AppendRecord(s, who), s.hands[who];
    assert who !in s.mirroring;
    assert forall v :: v in t.entries ==> v in s.entries || v == u;
    assert forall v :: Admitted(s, v) <==> Admitted(t, v);
    assert forall v :: Mirrored(t, v) <==> Mirrored(s, v);
    forall v | InTransit(s, v) ensures InTransit(t, v) {
      var p :| p in s.mirroring && s.mirroring[p] == v;
      assert p in t.mirroring && t.mirroring[p] == v;
    }
    if !who.Adder? {
      assert who in t.mirroring && t.mirroring[who] == u;
    }
  }

  lemma MirrorWrite(s: State, n: nat, who: Proc)
    requires MirrorInv(s, n) && Enabled(s, Mirror(who))
    ensures MirrorInv(MirrorRecord(s, who), n)
  {
    var t, u := MirrorRecord(s, who), s.mirroring[who];
    assert forall v :: Admitted(s, v) <==> Admitted(t, v);
    assert forall v :: Mirrored(t, v) <==> Mirrored(s, v) || v == u;
    forall v | InTransit(s, v) && v != u ensures InTransit(t, v) {
      var p :| p in s.mirroring && s.mirroring[p] == v;
      assert p in t.mirroring && t.mirroring[p] == v;
    }
  }

  lemma MirrorOther(s: State, n: nat, t: State)
    requires MirrorInv(s, n)
    requires t.data == s.data && t.overflowed == s.overflowed && t.hands == s.hands && t.mirroring == s.mirroring
    requires t.written == s.written && t.direct == s.direct && (t.entries == s.entries || t.entries == [])
    requires forall u :: u in t.chan ==> u in s.chan
    ensures MirrorInv(t, n)
  {
    assert forall u :: Admitted(s, u) <==> Admitted(t, u);
    assert forall u :: Mirrored(t, u) <==> Mirrored(s, u);
    assert forall u :: InTransit(t, u) <==> InTransit(s, u);
  }

  lemma MirrorStep(s: State, n: nat, step: Step)
    requires MirrorInv(s, n) && Enabled(s, step)
    ensures MirrorInv(Apply(s, step), n)
  {
    hide MirrorInv;
    match step {
      case Send(record) => MirrorSend(s, n, record);
      case Overflow(p, record) => MirrorOverflow(s, n, p, record);
      case Take(who) => MirrorTake(s, n, who);
      case Append(who) => MirrorAppend(s, n, who);
      case Mirror(who) => MirrorWrite(s, n, who);
      case _ => MirrorOther(s, n, Apply(s, step));
    }
  }

  lemma {:induction false} MirrorRun(s: State, n: nat, steps: seq<Step>, t: State)
    requires MirrorInv(s, n) && Reaches(Any, s, steps, t)
    ensures MirrorInv(t, n)
    decreases steps
  {
    if steps != [] {
      hide MirrorInv, Apply;
      MirrorStep(s, n, steps[0]);
      MirrorRun(Apply(s, steps[0]), n, steps[1..], t);
    }
  }

  /**
   * In every interleaving of posts, worker, readers, resets and flushes, from any start-up: a record
   * of the feed that was posted since has been passed to the file, or is about to be by the drainer
   * that appended it, if and only if its Add found room in the channel. So once no drainer is between
   * buffer and file, "mirrored" and "not overflowed" are the same.
   */
  lemma MirroredUnlessOverflowed(recovered: seq<string>, file: string, steps: seq<Step>, s: State)
    requires Reaches(Any, StartUp(recovered, file), steps, s)
    ensures forall t :: t in s.entries && t >= |recovered| ==>
              (Mirrored(s, t) || InTransit(s, t) <==> t !in s.overflowed)
    ensures s.mirroring == map[] ==>
              forall t :: t in s.entries && t >= |recovered| ==> (Mirrored(s, t) <==> t !in s.overflowed)
  {
    hide Reaches;
    assert forall u :: !Mirrored(StartUp(recovered, file), u);
    MirrorRun(StartUp(recovered, file), |recovered|, steps, s);
    assert s.mirroring == map[] ==> forall t :: !InTransit(s, t);
  }

  /** With the worker as sole drainer of a fresh file, file and writer's buffer hold just its journal. */
  lemma WorkerJournal(steps: seq<Step>, s: State)
    requires Reaches(WorkerOnly, StartUp([], ""), steps, s)
    ensures Known(s.data, s.written) && s.file + s.buffered == Journal(Datas(s.data, s.written))
    ensures Worker !in s.mirroring ==> forall t :: t in s.entries ==> (t in s.written <==> t !in s.overflowed)
  {
    hide Reaches;
    var s0 := StartUp([], "");
    ConservedAtStart([], "");
    FileRun(s0, steps, s, "");
    WorkerOnlyIsAny(s0, steps, s);
    MirroredUnlessOverflowed([], "", steps, s);
    assert "" + Journal(Datas(s.data, s.written)) == Journal(Datas(s.data, s.written));
    if Worker !in s.mirroring {
      assert forall t :: !InTransit(s, t);
    }
  }

  /** In such a run no reader ever writes to the file. */
  lemma {:induction false} WorkerOnlyIsAny(s: State, steps: seq<Step>, t: State)
    requires s.direct == {} && Reaches(WorkerOnly, s, steps, t)
    requires (forall r :: Reader(r) !in s.hands) && forall r :: Reader(r) !in s.mirroring
    ensures Reaches(Any, s, steps, t) && t.direct == {}
    decreases steps
  {
    if steps != [] {
      NoReaderStep(s, steps[0]);
      WorkerOnlyIsAny(Apply(s, steps[0]), steps[1..], t);
    }
  }

  lemma NoReaderStep(s: State, step: Step)
    requires s.direct == {} && Enabled(s, step) && WorkerOnly(step)
    requires (forall r :: Reader(r) !in s.hands) && forall r :: Reader(r) !in s.mirroring
    ensures var t := Apply(s, step);
            t.direct == {} && (forall r :: Reader(r) !in t.hands) && forall r :: Reader(r) !in t.mirroring
  {}

  // ---- A record that no backup will hold -----------------------------------------------------

  function Sends(n: nat, record: string): seq<Step> {
    if n == 0 then [] else [Send(record)] + Sends(n - 1, record)
  }

  lemma {:induction false} Sent(s: State, n: nat, record: string) returns (t: State)
    requires |s.chan| + n <= CHAN_CAP
    ensures Reaches(WorkerOnly, s, Sends(n, record), t)
    ensures |t.chan| == |s.chan| + n && |t.data| == |s.data| + n && t == s.(data := t.data, chan := t.chan)
    decreases n
  {
    if n == 0 {
      t := s;
    } else {
      t := Sent(Apply(s, Send(record)), n - 1, record);
      ReachesCons(WorkerOnly, s, Send(record), Sends(n - 1, record), t);
    }
  }

  lemma {:induction false} ReachesConcat(allowed: Step -> bool, s: State, a: seq<Step>, t: State, b: seq<Step>, u: State)
    requires Reaches(allowed, s, a, t) && Reaches(allowed, t, b, u)
    ensures Reaches(allowed, s, a + b, u)
    decreases a
  {
    if a == [] {
      assert a + b == b;
    } else {
      assert (a + b)[1..] == a[1..] + b;
      ReachesConcat(allowed, Apply(s, a[0]), a[1..], t, b, u);
    }
  }

  lemma Overflown(s: State, record: string) returns (t: State)
    requires |s.chan| == CHAN_CAP && s.hands == map[]
    ensures Reaches(WorkerOnly, s, [Overflow(0, record), Append(Adder(0))], t)
    ensures t.entries == s.entries + [|s.data|] && t.data == s.data + [record]
    ensures t.hands == map[] && t.overflowed == s.overflowed + {|s.data|} && t.mirroring == s.mirroring
    ensures t.builder == AppendEntry(s.builder, record) && t.written == s.written && t.direct == s.direct && t.discarded == s.discarded
  {
    var s1 := Apply(s, Overflow(0, record));
    t := Apply(s1, Append(Adder(0)));
    ReachesCons(WorkerOnly, s1, Append(Adder(0)), [], t);
    assert [Append(Adder(0))] + [] == [Append(Adder(0))];
    ReachesCons(WorkerOnly, s, Overflow(0, record), [Append(Adder(0))], t);
    assert [Overflow(0, record)] + [Append(Adder(0))] == [Overflow(0, record), Append(Adder(0))];
    assert t.hands == map[];
  }

  /**
   * "All accepted messages are mirrored" fails: a post that meets a full channel is accepted and at
   * once in the feed, and its record is one that, while it is there, nobody passes to the file.
   */
  lemma AcceptedMayBeUnmirrored(record: string) returns (steps: seq<Step>, s: State)
    ensures Reaches(WorkerOnly, StartUp([], ""), steps, s) && s.mirroring == map[]
    ensures s.entries == [CHAN_CAP] && |s.data| == CHAN_CAP + 1 && s.data[CHAN_CAP] == record && CHAN_CAP in Accepted(s)
    ensures FeedText(s.builder) == "[" + record + "]" && CHAN_CAP in s.overflowed && !Mirrored(s, CHAN_CAP)
  {
    var full := Sent(StartUp([], ""), CHAN_CAP, record);
    s := Overflown(full, record);
    steps := Sends(CHAN_CAP, record) + [Overflow(0, record), Append(Adder(0))];
    ReachesConcat(WorkerOnly, StartUp([], ""), Sends(CHAN_CAP, record), full, [Overflow(0, record), Append(Adder(0))], s);
    assert s.data[CHAN_CAP] == record && s.entries == [CHAN_CAP];
  }
}
