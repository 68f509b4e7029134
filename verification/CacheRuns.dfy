/**
 * The calls of the shared database are runs of the cache protocol: what the object does in a call
 * that meets no other one, the protocol does in the steps of that call.
 */
module CacheRuns {
  import opened Options
  import opened SharedCache
  import opened SharedDb

  /** Caller 0 takes these steps one after the other, from s to t. */
  predicate Takes(marshal: Marshal, s: State, what: seq<Step>, t: State)
    decreases what
  {
    if what == [] then s == t
    else Can(s, PcOf(s, 0), what[0]) && Takes(marshal, Apply(marshal, s, 0, what[0]), what[1..], t)
  }

  lemma TakesCons(marshal: Marshal, s: State, step: Step, rest: seq<Step>, t: State)
    requires Can(s, PcOf(s, 0), step) && Takes(marshal, Apply(marshal, s, 0, step), rest, t)
    ensures Takes(marshal, s, [step] + rest, t)
  {
    assert ([step] + rest)[1..] == rest;
  }

  /** Nobody holds the lock, and the caller is between two calls. */
  predicate Quiet(s: State) {
    s.lock == None && (PcOf(s, 0).Idle? || PcOf(s, 0).Done?) && s.mem.committed == s.mem.messages
  }

  predicate Looks(s: State, messages: seq<Record>, dirty: bool, cache: string) {
    s.mem.messages == messages && s.mem.dirty == dirty && s.mem.cache == cache
  }

  ghost predicate Shows(db: SharedDB, s: State)
    reads db
  {
    Quiet(s) && Looks(s, db.messages, db.dirty, db.cacheBytes)
  }

  // ---- Adds ---------------------------------------------------------------------------------------------

  function Deliveries(batch: seq<Delivery>): seq<Step> {
    if batch == [] then [] else [Deliver(batch[0])] + Deliveries(batch[1..])
  }

  /** The list after a batch, one delivery at a time. */
  function AfterAll(messages: seq<Record>, batch: seq<Delivery>): seq<Record>
    decreases batch
  {
    if batch == [] then messages else AfterAll(Delivered(messages, batch[0]), batch[1..])
  }

  /** Inside the lock: the deliveries, one after the other, and then the rest of the call. */
  lemma {:induction false} DeliverAll(marshal: Marshal, s: State, batch: seq<Delivery>) returns (t: State)
    requires PcOf(s, 0).Editing?
    ensures PcOf(t, 0).Editing? && t.mem == s.mem.(messages := AfterAll(s.mem.messages, batch)) && t.lock == s.lock
    ensures forall rest, u :: Takes(marshal, t, rest, u) ==> Takes(marshal, s, Deliveries(batch) + rest, u)
    decreases batch
  {
    hide Delivered;
    if batch == [] {
      t := s;
      assert forall rest :: Deliveries(batch) + rest == rest;
    } else {
      var v := Apply(marshal, s, 0, Deliver(batch[0]));
      t := DeliverAll(marshal, v, batch[1..]);
      forall rest, u | Takes(marshal, t, rest, u) ensures Takes(marshal, s, Deliveries(batch) + rest, u) {
        TakesCons(marshal, s, Deliver(batch[0]), Deliveries(batch[1..]) + rest, u);
        assert Deliveries(batch) + rest == [Deliver(batch[0])] + (Deliveries(batch[1..]) + rest);
      }
    }
  }

  function BatchSteps(batch: seq<Delivery>): seq<Step> {
    [LockAdd] + (Deliveries(batch) + ([StoreDirty] + ([UnlockAdd] + [])))
  }

  lemma BatchRun(marshal: Marshal, s: State, batch: seq<Delivery>) returns (t: State)
    requires Quiet(s)
    ensures Takes(marshal, s, BatchSteps(batch), t)
    ensures Quiet(t) && Looks(t, AfterAll(s.mem.messages, batch), true, s.mem.cache)
  {
    var s1 := Apply(marshal, s, 0, LockAdd);
    var s2 := DeliverAll(marshal, s1, batch);
    var s3 := Apply(marshal, s2, 0, StoreDirty);
    t := Apply(marshal, s3, 0, UnlockAdd);
    TakesCons(marshal, s3, UnlockAdd, [], t);
    TakesCons(marshal, s2, StoreDirty, [UnlockAdd] + [], t);
    TakesCons(marshal, s, LockAdd, Deliveries(batch) + ([StoreDirty] + ([UnlockAdd] + [])), t);
  }

  method BatchIsRun(db: SharedDB, batch: seq<Delivery>, ghost s: State) returns (inserted: int, ghost t: State)
    requires db.Valid() && Shows(db, s) && forall d :: d in batch ==> d.Item?
    modifies db
    ensures db.Valid() && Takes(db.marshal, s, BatchSteps(batch), t) && Shows(db, t)
  {
    ghost var log := db.log;
    t := BatchRun(db.marshal, s, batch);
    AfterAllFolds(db.messages, log, batch);
    inserted := db.AddBatch(batch);
    FoldsSame(db.messages, t.mem.messages, log + batch);
  }

  lemma {:induction false} AfterAllFolds(messages: seq<Record>, log: seq<Delivery>, batch: seq<Delivery>)
    requires Folds(messages, log)
    ensures Folds(AfterAll(messages, batch), log + batch)
    decreases batch
  {
    hide Folds, Delivered;
    if batch == [] {
      assert log + batch == log;
    } else {
      DeliveredFolds(messages, log, batch[0]);
      AfterAllFolds(Delivered(messages, batch[0]), log + [batch[0]], batch[1..]);
      assert log + [batch[0]] + batch[1..] == log + batch;
    }
  }

  /** A delivery that changes nothing leaves the cache clean if it was. */
  function SingleSteps(messages: seq<Record>, d: Delivery): seq<Step> {
    [LockAdd] + ([Deliver(d)] + if Delivered(messages, d) == messages then [UnlockAdd] + [] else [StoreDirty] + ([UnlockAdd] + []))
  }

  lemma SingleRun(marshal: Marshal, s: State, d: Delivery) returns (t: State)
    requires Quiet(s)
    ensures Takes(marshal, s, SingleSteps(s.mem.messages, d), t)
    ensures var after := Delivered(s.mem.messages, d);
            Quiet(t) && Looks(t, after, s.mem.dirty || after != s.mem.messages, s.mem.cache)
  {
    hide Delivered;
    var s1 := Apply(marshal, s, 0, LockAdd);
    var s2 := Apply(marshal, s1, 0, Deliver(d));
    if s2.mem.messages == s.mem.messages {
      t := Apply(marshal, s2, 0, UnlockAdd);
      TakesCons(marshal, s2, UnlockAdd, [], t);
    } else {
      var s3 := Apply(marshal, s2, 0, StoreDirty);
      t := Apply(marshal, s3, 0, UnlockAdd);
      TakesCons(marshal, s3, UnlockAdd, [], t);
      TakesCons(marshal, s2, StoreDirty, [UnlockAdd] + [], t);
    }
    var rest := if Delivered(s.mem.messages, d) == s.mem.messages then [UnlockAdd] + [] else [StoreDirty] + ([UnlockAdd] + []);
    TakesCons(marshal, s1, Deliver(d), rest, t);
    TakesCons(marshal, s, LockAdd, [Deliver(d)] + rest, t);
  }

  method SingleIsRun(db: SharedDB, msgId: string, username: string, plaintext: string, timestamp: int, ghost s: State)
    returns (ghost t: State)
    requires db.Valid() && Shows(db, s)
    modifies db
    ensures db.Valid() && Shows(db, t)
    ensures Takes(db.marshal, s, SingleSteps(s.mem.messages, Single(msgId, username, plaintext, timestamp)), t)
  {
    hide Delivered, Takes, SingleSteps;
    t := SingleRun(db.marshal, s, Single(msgId, username, plaintext, timestamp));
    db.AddSingle(msgId, username, plaintext, timestamp);
  }

  // ---- GetMessagesBytes and Reset ---------------------------------------------------------------------

  function GetSteps(dirty: bool): seq<Step> {
    if dirty then
      [CallGet] + ([LoadDirty] + ([LockGet] + ([Recheck] + ([StoreCache] + ([StoreClean] + ([UnlockGet] + ([LoadCache] + [])))))))
    else [CallGet] + ([LoadDirty] + ([LoadCache] + []))
  }

  lemma CleanRun(marshal: Marshal, s: State) returns (t: State)
    requires Quiet(s) && !s.mem.dirty
    ensures Takes(marshal, s, GetSteps(false), t) && Quiet(t) && t.mem == s.mem && PcOf(t, 0) == Done(s.mem.cache)
  {
    var s1 := Apply(marshal, s, 0, CallGet);
    var s2 := Apply(marshal, s1, 0, LoadDirty);
    t := Apply(marshal, s2, 0, LoadCache);
    TakesCons(marshal, s2, LoadCache, [], t);
    TakesCons(marshal, s1, LoadDirty, [LoadCache] + [], t);
    TakesCons(marshal, s, CallGet, [LoadDirty] + ([LoadCache] + []), t);
  }

  lemma RefreshRun(marshal: Marshal, s: State) returns (t: State)
    requires s.lock == None && PcOf(s, 0) == Waiting && s.mem.dirty && s.mem.committed == s.mem.messages
    ensures Takes(marshal, s, [LockGet] + ([Recheck] + ([StoreCache] + ([StoreClean] + ([UnlockGet] + ([LoadCache] + []))))), t)
    ensures Quiet(t) && Looks(t, s.mem.messages, false, marshal(s.mem.messages))
    ensures PcOf(t, 0) == Done(marshal(s.mem.messages))
  {
    var s1 := Apply(marshal, s, 0, LockGet);
    var s2 := Apply(marshal, s1, 0, Recheck);
    var s3 := Apply(marshal, s2, 0, StoreCache);
    var s4 := Apply(marshal, s3, 0, StoreClean);
    var s5 := Apply(marshal, s4, 0, UnlockGet);
    t := Apply(marshal, s5, 0, LoadCache);
    TakesCons(marshal, s5, LoadCache, [], t);
    TakesCons(marshal, s4, UnlockGet, [LoadCache] + [], t);
    TakesCons(marshal, s3, StoreClean, [UnlockGet] + ([LoadCache] + []), t);
    TakesCons(marshal, s2, StoreCache, [StoreClean] + ([UnlockGet] + ([LoadCache] + [])), t);
    TakesCons(marshal, s1, Recheck, [StoreCache] + ([StoreClean] + ([UnlockGet] + ([LoadCache] + []))), t);
    TakesCons(marshal, s, LockGet, [Recheck] + ([StoreCache] + ([StoreClean] + ([UnlockGet] + ([LoadCache] + [])))), t);
  }

  lemma GetRun(marshal: Marshal, s: State) returns (t: State)
    requires Quiet(s)
    ensures Takes(marshal, s, GetSteps(s.mem.dirty), t) && Quiet(t)
    ensures var bytes := if s.mem.dirty then marshal(s.mem.messages) else s.mem.cache;
            Looks(t, s.mem.messages, false, bytes) && PcOf(t, 0) == Done(bytes)
  {
    if s.mem.dirty {
      var s1 := Apply(marshal, s, 0, CallGet);
      var s2 := Apply(marshal, s1, 0, LoadDirty);
      t := RefreshRun(marshal, s2);
      var rest := [LockGet] + ([Recheck] + ([StoreCache] + ([StoreClean] + ([UnlockGet] + ([LoadCache] + [])))));
      TakesCons(marshal, s1, LoadDirty, rest, t);
      TakesCons(marshal, s, CallGet, [LoadDirty] + rest, t);
    } else {
      t := CleanRun(marshal, s);
    }
  }

  method GetIsRun(db: SharedDB, ghost s: State) returns (bytes: string, ghost t: State)
    requires db.Valid() && Shows(db, s)
    modifies db
    ensures db.Valid() && Takes(db.marshal, s, GetSteps(s.mem.dirty), t) && Shows(db, t)
    ensures PcOf(t, 0) == Done(bytes) && bytes == db.marshal(db.messages)
  {
    t := GetRun(db.marshal, s);
    bytes := db.GetMessagesBytes();
  }

  function ResetSteps(): seq<Step> {
    [LockReset] + ([ClearList] + ([StoreEmpty] + ([StoreCleanReset] + ([UnlockReset] + []))))
  }

  lemma ResetRun(marshal: Marshal, s: State) returns (t: State)
    requires Quiet(s)
    ensures Takes(marshal, s, ResetSteps(), t) && Quiet(t) && Looks(t, [], false, "[]")
  {
    var s1 := Apply(marshal, s, 0, LockReset);
    var s2 := Apply(marshal, s1, 0, ClearList);
    var s3 := Apply(marshal, s2, 0, StoreEmpty);
    var s4 := Apply(marshal, s3, 0, StoreCleanReset);
    t := Apply(marshal, s4, 0, UnlockReset);
    TakesCons(marshal, s4, UnlockReset, [], t);
    TakesCons(marshal, s3, StoreCleanReset, [UnlockReset] + [], t);
    TakesCons(marshal, s2, StoreEmpty, [StoreCleanReset] + ([UnlockReset] + []), t);
    TakesCons(marshal, s1, ClearList, [StoreEmpty] + ([StoreCleanReset] + ([UnlockReset] + [])), t);
    TakesCons(marshal, s, LockReset, [ClearList] + ([StoreEmpty] + ([StoreCleanReset] + ([UnlockReset] + []))), t);
  }

  method ResetIsRun(db: SharedDB, ghost s: State) returns (ghost t: State)
    requires db.Valid() && Shows(db, s)
    modifies db
    ensures db.Valid() && Takes(db.marshal, s, ResetSteps(), t) && Shows(db, t)
  {
    t := ResetRun(db.marshal, s);
    db.Reset();
  }

  // ---- A call beside an Add --------------------------------------------------------------------------

  lemma Extend(marshal: Marshal, run: seq<State>, who: seq<nat>, what: seq<Step>, s: State, id: nat, step: Step)
    returns (longer: seq<State>, callers: seq<nat>, steps: seq<Step>, t: State)
    requires IsRun(marshal, run, who, what) && s == run[|what|] && Can(s, PcOf(s, id), step)
    ensures IsRun(marshal, longer, callers, steps) && t == Apply(marshal, s, id, step) == longer[|steps|]
    ensures longer == run + [t] && callers == who + [id] && steps == what + [step]
  {
    t := Apply(marshal, s, id, step);
    longer, callers, steps := run + [t], who + [id], what + [step];
  }

  /** The reader calls and sees the flag clean; another caller enters an Add. */
  lemma SeenClean(marshal: Marshal) returns (run: seq<State>, who: seq<nat>, what: seq<Step>, s: State)
    ensures IsRun(marshal, run, who, what) && |what| == 3 && s == run[3]
    ensures s == State(Memory([], false, "[]", []), Some(1), map[0 := Loading, 1 := Editing(false)])
  {
    s := Start();
    run, who, what := [s], [], [];
    run, who, what, s := Extend(marshal, run, who, what, s, 0, CallGet);
    run, who, what, s := Extend(marshal, run, who, what, s, 0, LoadDirty);
    run, who, what, s := Extend(marshal, run, who, what, s, 1, LockAdd);
    assert s.pcs == map[0 := Loading, 1 := Editing(false)];
  }

  lemma AddBeside(marshal: Marshal, run3: seq<State>, who3: seq<nat>, what3: seq<Step>, s3: State, d: Delivery)
    returns (run: seq<State>, who: seq<nat>, what: seq<Step>, s: State)
    requires IsRun(marshal, run3, who3, what3) && |what3| == 3 && s3 == run3[3]
    requires s3 == State(Memory([], false, "[]", []), Some(1), map[0 := Loading, 1 := Editing(false)])
    ensures IsRun(marshal, run, who, what) && |what| == 6 && s == run[6]
    ensures s.mem.cache == "[]" && s.mem.committed == Delivered([], d) && PcOf(s, 0) == Loading
  {
    hide Delivered, IsRun;
    run, who, what, s := Extend(marshal, run3, who3, what3, s3, 1, Deliver(d));
    run, who, what, s := Extend(marshal, run, who, what, s, 1, StoreDirty);
    run, who, what, s := Extend(marshal, run, who, what, s, 1, UnlockAdd);
  }

  /** A call that has seen the flag clean may answer with a list older than the one committed meanwhile. */
  lemma MayAnswerOlder(marshal: Marshal, d: Delivery) returns (run: seq<State>, who: seq<nat>, what: seq<Step>)
    requires d.Single?
    ensures IsRun(marshal, run, who, what) && |what| == 7 && what[6] == LoadCache && who[6] == 0
    ensures run[6].mem.committed == [NewRecord(1, d)] && PcOf(run[7], 0) == Done("[]")
  {
    var s: State;
    run, who, what, s := SeenClean(marshal);
    run, who, what, s := AddBeside(marshal, run, who, what, s, d);
    assert Delivered([], d) == [NewRecord(1, d)];
    hide IsRun, Delivered, NewRecord;
    run, who, what, s := Extend(marshal, run, who, what, s, 0, LoadCache);
  }
}
