/**
 * The calls of the feed store are runs of the interleaved model: what the object does in a call that
 * meets no other one, the model does in the steps of that call.
 */
module FeedRuns {
  import opened FeedFormat
  import opened FeedMirror
  import opened FeedProtocol
  import opened FeedStore
  import opened Options

  /** Nobody is at work between two steps. */
  predicate Quiet(s: State) {
    s.hands == map[] && s.mirroring == map[] && s.ending == {} && s.calls == map[] && s.resets == map[]
  }

  /** The model's channel, buffer and file hold what the object's do. */
  ghost predicate Shows(store: AtomicFeedStore, s: State)
    reads store, store.shm
  {
    && store.shm != null && Quiet(s) && BufferInv(s) && Known(s.data, s.chan)
    && Datas(s.data, s.chan) == store.msgChan && Datas(s.data, s.entries) == store.entries
    && s.file == store.shm.file && s.buffered == store.shm.buffered
  }

  lemma DatasAgree(data: seq<string>, more: seq<string>, tokens: seq<nat>)
    requires Known(data, tokens) && data <= more
    ensures Known(more, tokens) && Datas(more, tokens) == Datas(data, tokens)
  {}

  lemma DatasConcat(data: seq<string>, a: seq<nat>, b: seq<nat>)
    requires Known(data, a) && Known(data, b)
    ensures Known(data, a + b) && Datas(data, a + b) == Datas(data, a) + Datas(data, b)
  {}

  lemma DatasOne(data: seq<string>, t: nat)
    requires t < |data|
    ensures Known(data, [t]) && Datas(data, [t]) == [data[t]]
  {}

  lemma DatasRest(data: seq<string>, tokens: seq<nat>)
    requires Known(data, tokens) && tokens != []
    ensures Known(data, tokens[1..]) && Datas(data, tokens[1..]) == Datas(data, tokens)[1..]
    ensures Datas(data, tokens)[0] == data[tokens[0]]
  {}

  // ---- Add ------------------------------------------------------------------------------------------

  function AddSteps(s: State, record: string): seq<Step> {
    if |s.chan| < CHAN_CAP then [Send(record)] else [Overflow(0, record), Append(Adder(0))]
  }

  lemma AddRun(s: State, record: string) returns (t: State)
    requires Quiet(s) && BufferInv(s) && Known(s.data, s.chan) && |s.chan| <= CHAN_CAP
    ensures Reaches(Any, s, AddSteps(s, record), t)
    ensures Quiet(t) && BufferInv(t) && t.data == s.data + [record] && t.file == s.file && t.buffered == s.buffered
    ensures if |s.chan| < CHAN_CAP then t.chan == s.chan + [|s.data|] && t.entries == s.entries
            else t.chan == s.chan && t.entries == s.entries + [|s.data|]
  {
    if |s.chan| < CHAN_CAP {
      t := Apply(s, Send(record));
      ReachesCons(Any, s, Send(record), [], t);
      assert [Send(record)] + [] == [Send(record)];
      BufferStep(s, Send(record));
    } else {
      var u := Apply(s, Overflow(0, record));
      t := Apply(u, Append(Adder(0)));
      ReachesCons(Any, u, Append(Adder(0)), [], t);
      assert [Append(Adder(0))] + [] == [Append(Adder(0))];
      ReachesCons(Any, s, Overflow(0, record), [Append(Adder(0))], t);
      assert [Overflow(0, record)] + [Append(Adder(0))] == [Overflow(0, record), Append(Adder(0))];
      BufferStep(s, Overflow(0, record));
      BufferStep(u, Append(Adder(0)));
      assert t.hands == map[];
    }
  }

  method AddIsRun(store: AtomicFeedStore, record: string, ghost s: State) returns (ok: bool, ghost t: State)
    requires store.Valid() && Shows(store, s)
    modifies store
    ensures store.Valid() && Reaches(Any, s, AddSteps(s, record), t) && Shows(store, t)
  {
    t := AddRun(s, record);
    DatasAgree(s.data, t.data, s.chan);
    DatasAgree(s.data, t.data, s.entries);
    DatasOne(t.data, |s.data|);
    DatasConcat(t.data, s.chan, [|s.data|]);
    DatasConcat(t.data, s.entries, [|s.data|]);
    ok := store.Add(record);
  }

  // ---- The worker's round ---------------------------------------------------------------------------

  lemma TwoSteps(s: State, a: Step, u: State, b: Step, t: State)
    requires Enabled(s, a) && u == Apply(s, a) && Enabled(u, b) && t == Apply(u, b)
    ensures Reaches(Any, s, [a, b], t)
  {
    ReachesCons(Any, u, b, [], t);
    assert [b] + [] == [b];
    ReachesCons(Any, s, a, [b], t);
    assert [a] + [b] == [a, b];
  }

  /** A drainer takes a record and appends it, while no other one has any in hand. */
  lemma TakeAndAppend(s: State, who: Proc) returns (t: State)
    requires s.hands == map[] && s.mirroring == map[] && BufferInv(s) && Known(s.data, s.chan)
    requires s.chan != [] && Free(s, who) && !who.Adder?
    ensures Reaches(Any, s, [Take(who), Append(who)], t) && BufferInv(t)
    ensures t == s.(chan := s.chan[1..], mirroring := map[who := s.chan[0]], entries := s.entries + [s.chan[0]],
                    builder := t.builder, count := t.count)
  {
    var u := Apply(s, Take(who));
    t := Apply(u, Append(who));
    BufferStep(s, Take(who));
    BufferStep(u, Append(who));
    TwoSteps(s, Take(who), u, Append(who), t);
    assert t.hands == map[] && t.mirroring == map[who := s.chan[0]];
  }

  /** Take and append, then write, and flush as many bytes as the writer did. */
  function ReceiveSteps(bytes: nat): seq<Step> {
    [Take(Worker), Append(Worker)] + [Mirror(Worker), Flush(bytes)]
  }

  lemma WriteAndFlush(s: State, token: nat, file: string) returns (t: State)
    requires token < |s.data| && s.mirroring == map[Worker := token] && BufferInv(s)
    requires s.file <= file <= s.file + s.buffered + (s.data[token] + "\n")
    ensures Reaches(Any, s, [Mirror(Worker), Flush(|file| - |s.file|)], t) && BufferInv(t)
    ensures t == s.(mirroring := map[], file := file, buffered := t.buffered, written := t.written)
    ensures t.file + t.buffered == s.file + s.buffered + (s.data[token] + "\n")
  {
    var n, line := |file| - |s.file|, s.data[token] + "\n";
    var u := Apply(s, Mirror(Worker));
    assert s.file + (s.buffered + line) == s.file + s.buffered + line;
    FlushTo(s.file, s.buffered + line, file, n);
    t := Apply(u, Flush(n));
    BufferStep(s, Mirror(Worker));
    BufferStep(u, Flush(n));
    TwoSteps(s, Mirror(Worker), u, Flush(n), t);
    assert t.mirroring == map[];
  }

  lemma ReceiveRun(s: State, file: string) returns (t: State)
    requires Quiet(s) && BufferInv(s) && Known(s.data, s.chan) && s.chan != []
    requires s.file <= file <= s.file + s.buffered + (s.data[s.chan[0]] + "\n")
    ensures Reaches(Any, s, ReceiveSteps(|file| - |s.file|), t)
    ensures Quiet(t) && BufferInv(t) && t.data == s.data && t.chan == s.chan[1..] && t.entries == s.entries + [s.chan[0]]
    ensures t.file == file && t.file + t.buffered == s.file + s.buffered + (s.data[s.chan[0]] + "\n")
  {
    hide Reaches, BufferInv;
    var u := TakeAndAppend(s, Worker);
    t := WriteAndFlush(u, s.chan[0], file);
    ReachesConcat(Any, s, [Take(Worker), Append(Worker)], u, [Mirror(Worker), Flush(|file| - |s.file|)], t);
  }

  lemma FlushTo(before: string, pending: string, after: string, n: nat)
    requires before <= after <= before + pending && n == |after| - |before|
    ensures before + pending[..n] == after && after + pending[n..] == before + pending
  {}

  method ReceiveIsRun(store: AtomicFeedStore, ghost s: State) returns (ghost steps: seq<Step>, ghost t: State)
    requires store.Valid() && Shows(store, s) && store.msgChan != []
    modifies store, store.shm
    ensures store.Valid() && Reaches(Any, s, steps, t) && Shows(store, t)
  {
    ghost var token := s.chan[0];
    DatasRest(s.data, s.chan);
    DatasOne(s.data, token);
    DatasConcat(s.data, s.entries, [token]);
    store.WorkerReceive();
    steps := ReceiveSteps(|store.shm.file| - |s.file|);
    t := ReceiveRun(s, store.shm.file);
    SameRest(t.file, t.buffered, store.shm.buffered);
  }

  lemma SameRest(file: string, a: string, b: string)
    requires file + a == file + b
    ensures a == b
  {
    assert (file + a)[|file|..] == a && (file + b)[|file|..] == b;
  }

  // ---- GET /feed --------------------------------------------------------------------------------------

  function DrainOne(): seq<Step> {
    [Take(Reader(0)), Append(Reader(0))] + [Mirror(Reader(0)), Newline(0)]
  }

  function DrainSteps(n: nat): seq<Step> {
    if n == 0 then [] else DrainOne() + DrainSteps(n - 1)
  }

  /** A call that has begun and not seen the channel empty, with nobody else at work. */
  predicate Draining(s: State, call: Call) {
    s.hands == map[] && s.mirroring == map[] && s.ending == {} && s.calls == map[0 := call] && !call.drained
    && s.resets == map[]
  }

  lemma WriteLine(s: State, token: nat) returns (t: State)
    requires token < |s.data| && s.mirroring == map[Reader(0) := token] && s.ending == {} && BufferInv(s)
    ensures Reaches(Any, s, [Mirror(Reader(0)), Newline(0)], t) && BufferInv(t)
    ensures t == s.(mirroring := map[], file := s.file + (s.data[token] + "\n"), direct := t.direct)
  {
    var u := Apply(s, Mirror(Reader(0)));
    t := Apply(u, Newline(0));
    BufferStep(s, Mirror(Reader(0)));
    BufferStep(u, Newline(0));
    TwoSteps(s, Mirror(Reader(0)), u, Newline(0), t);
    assert t.mirroring == map[] && t.ending == {};
    assert s.file + s.data[token] + "\n" == s.file + (s.data[token] + "\n");
  }

  lemma DrainOneRun(s: State, call: Call) returns (t: State)
    requires Draining(s, call) && BufferInv(s) && Known(s.data, s.chan) && s.chan != []
    ensures Reaches(Any, s, DrainOne(), t)
    ensures Draining(t, call) && BufferInv(t) && t.data == s.data && t.chan == s.chan[1..]
    ensures t.entries == s.entries + [s.chan[0]] && t.file == s.file + (s.data[s.chan[0]] + "\n") && t.buffered == s.buffered
  {
    hide Reaches, BufferInv;
    var u := TakeAndAppend(s, Reader(0));
    t := WriteLine(u, s.chan[0]);
    ReachesConcat(Any, s, [Take(Reader(0)), Append(Reader(0))], u, [Mirror(Reader(0)), Newline(0)], t);
  }

  lemma JournalFirst(before: string, line: string, rest: string, data: string, entries: seq<string>)
    requires entries != [] && data == entries[0] && line == data + "\n" && rest == Journal(entries[1..])
    ensures before + line + rest == before + Journal(entries)
  {
    assert before + (data + "\n") + rest == before + (data + ("\n" + rest));
  }

  /** What the rest of the drain adds to the first record's. */
  lemma DrainRest(s: State, u: State, t: State)
    requires Known(s.data, s.chan) && s.chan != [] && Known(u.data, u.chan)
    requires u.data == s.data && u.chan == s.chan[1..] && u.entries == s.entries + [s.chan[0]]
    requires u.file == s.file + (s.data[s.chan[0]] + "\n")
    requires t.entries == u.entries + u.chan && t.file == u.file + Journal(Datas(u.data, u.chan))
    ensures t.entries == s.entries + s.chan && t.file == s.file + Journal(Datas(s.data, s.chan))
  {
    DatasRest(s.data, s.chan);
    JournalFirst(s.file, s.data[s.chan[0]] + "\n", Journal(Datas(u.data, u.chan)), s.data[s.chan[0]], Datas(s.data, s.chan));
    assert s.entries + [s.chan[0]] + s.chan[1..] == s.entries + s.chan;
  }

  lemma DrainOn(s: State, u: State, n: nat, t: State)
    requires n > 0 && Reaches(Any, s, DrainOne(), u) && Reaches(Any, u, DrainSteps(n - 1), t)
    ensures Reaches(Any, s, DrainSteps(n), t)
  {
    hide Reaches, DrainOne;
    ReachesConcat(Any, s, DrainOne(), u, DrainSteps(n - 1), t);
  }

  lemma {:induction false} DrainRun(s: State, call: Call) returns (t: State)
    requires Draining(s, call) && BufferInv(s) && Known(s.data, s.chan)
    ensures Reaches(Any, s, DrainSteps(|s.chan|), t)
    ensures Draining(t, call) && BufferInv(t) && t.data == s.data && t.chan == []
    ensures t.entries == s.entries + s.chan && t.file == s.file + Journal(Datas(s.data, s.chan)) && t.buffered == s.buffered
    decreases s.chan
  {
    if s.chan == [] {
      t := s;
      assert Datas(s.data, s.chan) == [];
    } else {
      hide Reaches, BufferInv, Datas, Journal, DrainOne, DrainSteps, Draining;
      var u := DrainOneRun(s, call);
      t := DrainRun(u, call);
      DrainRest(s, u, t);
      DrainOn(s, u, |s.chan|, t);
    }
  }

  function GetSteps(n: nat): seq<Step> {
    [Start(0)] + (DrainSteps(n) + [SeeEmpty(0), Return(0)])
  }

  lemma GetRun(s: State) returns (t: State)
    requires Quiet(s) && BufferInv(s) && Known(s.data, s.chan)
    ensures Reaches(Any, s, GetSteps(|s.chan|), t)
    ensures Quiet(t) && BufferInv(t) && t.data == s.data && t.chan == []
    ensures t.entries == s.entries + s.chan && t.file == s.file + Journal(Datas(s.data, s.chan)) && t.buffered == s.buffered
  {
    var call := Call(Accepted(s), false);
    var s1 := Apply(s, Start(0));
    BufferStep(s, Start(0));
    assert s1.calls == map[0 := call];
    var s2 := DrainRun(s1, call);
    t := Leave(s2, call);
    ReachesConcat(Any, s1, DrainSteps(|s.chan|), s2, [SeeEmpty(0), Return(0)], t);
    ReachesCons(Any, s, Start(0), DrainSteps(|s.chan|) + [SeeEmpty(0), Return(0)], t);
  }

  lemma Leave(s: State, call: Call) returns (t: State)
    requires Draining(s, call) && s.chan == []
    ensures Reaches(Any, s, [SeeEmpty(0), Return(0)], t) && Quiet(t) && t == s.(calls := map[])
  {
    var u := Apply(s, SeeEmpty(0));
    t := Apply(u, Return(0));
    assert t.calls == map[];
    ReachesCons(Any, u, Return(0), [], t);
    assert [Return(0)] + [] == [Return(0)];
    ReachesCons(Any, s, SeeEmpty(0), [Return(0)], t);
    assert [SeeEmpty(0)] + [Return(0)] == [SeeEmpty(0), Return(0)];
  }

  method GetIsRun(store: AtomicFeedStore, ghost s: State) returns (buf: string, ghost t: State)
    requires store.Valid() && Shows(store, s)
    modifies store, store.shm
    ensures store.Valid() && Reaches(Any, s, GetSteps(|s.chan|), t) && Shows(store, t)
    ensures buf == FeedText(t.builder)
  {
    t := GetRun(s);
    DatasConcat(s.data, s.entries, s.chan);
    buf := store.GetFeedBytes();
  }

  // ---- The ticker and resets --------------------------------------------------------------------------

  method TickIsRun(store: AtomicFeedStore, ghost s: State) returns (ghost t: State)
    requires store.Valid() && Shows(store, s)
    modifies store.shm
    ensures store.Valid() && Reaches(Any, s, [Flush(|s.buffered|)], t) && Shows(store, t)
  {
    t := Apply(s, Flush(|s.buffered|));
    BufferStep(s, Flush(|s.buffered|));
    ReachesCons(Any, s, Flush(|s.buffered|), [], t);
    assert [Flush(|s.buffered|)] + [] == [Flush(|s.buffered|)];
    assert s.buffered[..|s.buffered|] == s.buffered && s.buffered[|s.buffered|..] == "";
    store.WorkerTick();
  }

  function DiscardSteps(n: nat): seq<Step> {
    if n == 0 then [] else [ResetTake(0)] + DiscardSteps(n - 1)
  }

  lemma {:induction false} DiscardRun(s: State) returns (t: State)
    requires s.resets == map[0 := false] && BufferInv(s)
    ensures Reaches(Any, s, DiscardSteps(|s.chan|), t) && BufferInv(t)
    ensures t == s.(chan := [], discarded := s.discarded + s.chan)
    decreases s.chan
  {
    if s.chan == [] {
      t := s;
      assert s.discarded + [] == s.discarded;
    } else {
      var u := Apply(s, ResetTake(0));
      BufferStep(s, ResetTake(0));
      t := DiscardRun(u);
      ReachesCons(Any, s, ResetTake(0), DiscardSteps(|s.chan| - 1), t);
      assert s.discarded + [s.chan[0]] + s.chan[1..] == s.discarded + s.chan;
    }
  }

  lemma ClearRun(s: State) returns (t: State)
    requires s.resets == map[0 := false] && BufferInv(s) && s.chan == []
    ensures Reaches(Any, s, [ResetSeeEmpty(0), ResetClear(0)], t) && BufferInv(t)
    ensures t == s.(builder := "", count := 0, entries := [], discarded := t.discarded, file := "", resets := map[])
  {
    var u := Apply(s, ResetSeeEmpty(0));
    t := Apply(u, ResetClear(0));
    BufferStep(s, ResetSeeEmpty(0));
    BufferStep(u, ResetClear(0));
    TwoSteps(s, ResetSeeEmpty(0), u, ResetClear(0), t);
    assert t.resets == map[];
  }

  function ResetSteps(n: nat): seq<Step> {
    [ResetStart(0)] + (DiscardSteps(n) + [ResetSeeEmpty(0), ResetClear(0)])
  }

  lemma ResetRun(s: State) returns (t: State)
    requires Quiet(s) && BufferInv(s)
    ensures Reaches(Any, s, ResetSteps(|s.chan|), t) && Quiet(t) && BufferInv(t)
    ensures t.data == s.data && t.chan == [] && t.entries == [] && t.file == "" && t.buffered == s.buffered
  {
    var s1 := Apply(s, ResetStart(0));
    BufferStep(s, ResetStart(0));
    assert s1.resets == map[0 := false];
    var s2 := DiscardRun(s1);
    t := ClearRun(s2);
    hide Reaches, BufferInv, Apply;
    ReachesConcat(Any, s1, DiscardSteps(|s.chan|), s2, [ResetSeeEmpty(0), ResetClear(0)], t);
    StartReset(s, s1, |s.chan|, t);
  }

  lemma StartReset(s: State, s1: State, n: nat, t: State)
    requires Enabled(s, ResetStart(0)) && s1 == Apply(s, ResetStart(0))
    requires Reaches(Any, s1, DiscardSteps(n) + [ResetSeeEmpty(0), ResetClear(0)], t)
    ensures Reaches(Any, s, ResetSteps(n), t)
  {
    ReachesCons(Any, s, ResetStart(0), DiscardSteps(n) + [ResetSeeEmpty(0), ResetClear(0)], t);
  }

  method ResetIsRun(store: AtomicFeedStore, ghost s: State) returns (ghost t: State)
    requires store.Valid() && Shows(store, s)
    modifies store, store.shm
    ensures store.Valid() && Reaches(Any, s, ResetSteps(|s.chan|), t) && Shows(store, t)
  {
    t := ResetRun(s);
    store.Reset();
  }

  // ---- Two drainers -----------------------------------------------------------------------------------

  lemma TwoInHand(a: string, b: string) returns (t: State)
    ensures Reaches(Any, StartUp([], ""), [Send(a), Send(b)] + ([Take(Worker), Start(0)] + ([Take(Reader(0))] + [])), t)
    ensures t.data == [a, b] && t.chan == [] && t.hands == map[Worker := 0, Reader(0) := 1]
    ensures t.entries == [] && t.builder == "" && t.mirroring == map[]
  {
    var s0 := StartUp([], "");
    var s1 := Apply(s0, Send(a));
    var s2 := Apply(s1, Send(b));
    TwoSteps(s0, Send(a), s1, Send(b), s2);
    assert s2.chan == [0, 1] && s2.data == [a, b];
    var s3 := Apply(s2, Take(Worker));
    var s4 := Apply(s3, Start(0));
    TwoSteps(s2, Take(Worker), s3, Start(0), s4);
    assert s4.chan == [1] && s4.hands == map[Worker := 0];
    t := Apply(s4, Take(Reader(0)));
    ReachesCons(Any, s4, Take(Reader(0)), [], t);
    ReachesConcat(Any, s2, [Take(Worker), Start(0)], s4, [Take(Reader(0))] + [], t);
    ReachesConcat(Any, s0, [Send(a), Send(b)], s2, [Take(Worker), Start(0)] + ([Take(Reader(0))] + []), t);
  }

  /** Two drainers at work can exchange the order in which records were accepted. */
  lemma DrainersReorder(a: string, b: string) returns (steps: seq<Step>, t: State)
    ensures Reaches(Any, StartUp([], ""), steps, t)
    ensures t.data == [a, b] && t.entries == [1, 0] && FeedText(t.builder) == "[" + b + "," + a + "]"
  {
    var s := TwoInHand(a, b);
    var u := Apply(s, Append(Reader(0)));
    assert u.hands == map[Worker := 0] && u.entries == [1] && u.builder == "[" + b;
    t := Apply(u, Append(Worker));
    TwoSteps(s, Append(Reader(0)), u, Append(Worker), t);
    assert t.entries == [1, 0] && t.builder == "[" + b + ("," + a);
    var before := [Send(a), Send(b)] + ([Take(Worker), Start(0)] + ([Take(Reader(0))] + []));
    ReachesConcat(Any, StartUp([], ""), before, s, [Append(Reader(0)), Append(Worker)], t);
    steps := before + [Append(Reader(0)), Append(Worker)];
  }
}
