/**
 * GetMessagesBytes beside AddSingle, AddBatch and Reset: the dirty flag and the cache pointer are
 * read outside the lock, yet every call returns the rendering of what had been committed at some
 * moment of the call.
 *
 * One step is one atomic access, or one access under the lock, by any of any number of callers.
 */
module SharedCache {
  import opened Options
  import opened SharedDb

  type Marshal = seq<Record> -> string

  /** Where a caller stands; a finished GetMessagesBytes keeps its answer until the next call. */
  datatype Pc =
    | Idle
    // GetMessagesBytes
    | Begun
    | Waiting
    | Checking
    | Rendered(data: string)
    | Refreshed
    | Leaving
    | Loading
    | Done(bytes: string)
    // AddSingle and AddBatch, holding the lock
    | Editing(edited: bool)
    | Marked
    // Reset, holding the lock
    | Clearing
    | Cleared
    | Emptied
    | Cleaned

  datatype Step =
    | CallGet
    | LoadDirty
    | LockGet
    | Recheck
    | StoreCache
    | StoreClean
    | UnlockGet
    | LoadCache
    | LockAdd
    | Deliver(d: Delivery)
    | StoreDirty
    | UnlockAdd
    | LockReset
    | ClearList
    | StoreEmpty
    | StoreCleanReset
    | UnlockReset

  /**
   * `committed` is a history variable: the list as the last completed writer left it. An Add commits
   * when it releases the lock, a Reset when it stores the empty cache.
   */
  datatype Memory = Memory(messages: seq<Record>, dirty: bool, cache: string, committed: seq<Record>)

  datatype State = State(mem: Memory, lock: Option<nat>, pcs: map<nat, Pc>)

  function PcOf(s: State, id: nat): Pc {
    if id in s.pcs then s.pcs[id] else Idle
  }

  function Start(): State {
    State(Memory([], false, "[]", []), None, map[])
  }

  // ---- The steps ---------------------------------------------------------------------------------

  /**
   * Which steps the program text offers at a pc; a lock is only granted while nobody holds it. An
   * AddSingle of a known id and an AddBatch differ in whether `StoreDirty` follows an idle delivery.
   */
  predicate Can(s: State, pc: Pc, step: Step) {
    match step
    case CallGet => pc.Idle? || pc.Done?
    case LoadDirty => pc.Begun?
    case LockGet => pc.Waiting? && s.lock == None
    case Recheck => pc.Checking?
    case StoreCache => pc.Rendered?
    case StoreClean => pc.Refreshed?
    case UnlockGet => pc.Leaving?
    case LoadCache => pc.Loading?
    case LockAdd => (pc.Idle? || pc.Done?) && s.lock == None
    case Deliver(_) => pc.Editing?
    case StoreDirty => pc.Editing?
    case UnlockAdd => pc.Marked? || pc == Editing(false)
    case LockReset => (pc.Idle? || pc.Done?) && s.lock == None
    case ClearList => pc.Clearing?
    case StoreEmpty => pc.Cleared?
    case StoreCleanReset => pc.Emptied?
    case UnlockReset => pc.Cleaned?
  }

  function PcAfter(marshal: Marshal, mem: Memory, pc: Pc, step: Step): Pc {
    match step
    case CallGet => Begun
    case LoadDirty => if mem.dirty then Waiting else Loading
    case LockGet => Checking
    case Recheck => if mem.dirty then Rendered(marshal(mem.messages)) else Leaving
    case StoreCache => Refreshed
    case StoreClean => Leaving
    case UnlockGet => Loading
    case LoadCache => Done(mem.cache)
    case LockAdd => Editing(false)
    case Deliver(d) => Editing((pc.Editing? && pc.edited) || Delivered(mem.messages, d) != mem.messages)
    case StoreDirty => Marked
    case LockReset => Clearing
    case ClearList => Cleared
    case StoreEmpty => Emptied
    case StoreCleanReset => Cleaned
    case UnlockAdd => Idle
    case UnlockReset => Idle
  }

  function MemoryAfter(mem: Memory, pc: Pc, step: Step): Memory {
    match step
    case StoreCache => if pc.Rendered? then mem.(cache := pc.data) else mem
    case StoreClean => mem.(dirty := false)
    case Deliver(d) => mem.(messages := Delivered(mem.messages, d))
    case StoreDirty => mem.(dirty := true)
    case UnlockAdd => mem.(committed := mem.messages)
    case ClearList => mem.(messages := [])
    case StoreEmpty => mem.(cache := "[]", committed := [])
    case StoreCleanReset => mem.(dirty := false)
    case _ => mem
  }

  function LockAfter(s: State, id: nat, step: Step): Option<nat> {
    if step.LockGet? || step.LockAdd? || step.LockReset? then Some(id)
    else if step.UnlockGet? || step.UnlockAdd? || step.UnlockReset? then None
    else s.lock
  }

  function Apply(marshal: Marshal, s: State, id: nat, step: Step): State {
    State(MemoryAfter(s.mem, PcOf(s, id), step), LockAfter(s, id, step),
          s.pcs[id := PcAfter(marshal, s.mem, PcOf(s, id), step)])
  }

  /** A run: `run[i]` is the state before the i-th step. */
  ghost predicate IsRun(marshal: Marshal, run: seq<State>, who: seq<nat>, what: seq<Step>) {
    && |run| == |what| + 1 && |who| == |what|
    && run[0] == Start()
    && forall i :: 0 <= i < |what| ==>
         Can(run[i], PcOf(run[i], who[i]), what[i]) && run[i + 1] == Apply(marshal, run[i], who[i], what[i])
  }

  // ---- What every step keeps -------------------------------------------------------------------

  predicate HoldsLock(pc: Pc) {
    match pc
    case Idle => false
    case Begun => false
    case Waiting => false
    case Loading => false
    case Done(_) => false
    case _ => true
  }

  /** What the owner of the lock can rely on. */
  predicate OwnerOk(marshal: Marshal, mem: Memory, pc: Pc) {
    match pc
    case Rendered(data) => mem.messages == mem.committed && data == marshal(mem.committed) && mem.dirty
    case Refreshed => mem.messages == mem.committed && mem.cache == marshal(mem.committed)
    case Leaving => mem.messages == mem.committed && !mem.dirty
    case Editing(edited) => !edited ==> mem.messages == mem.committed
    case Marked => mem.dirty
    case Cleared => mem.messages == []
    case Emptied => mem.messages == mem.committed && mem.cache == marshal(mem.committed)
    case _ => mem.messages == mem.committed
  }

  predicate MemoryOk(marshal: Marshal, mem: Memory) {
    mem.dirty || mem.cache == marshal(mem.committed)
  }

  ghost predicate Inv(marshal: Marshal, s: State) {
    && MemoryOk(marshal, s.mem)
    && (forall id: nat :: HoldsLock(PcOf(s, id)) ==> s.lock == Some(id))
    && (s.lock == None ==> s.mem.messages == s.mem.committed)
    && (s.lock.Some? ==> HoldsLock(PcOf(s, s.lock.value)) && OwnerOk(marshal, s.mem, PcOf(s, s.lock.value)))
  }

  lemma InvStep(marshal: Marshal, s: State, id: nat, step: Step)
    requires marshal([]) == "[]" && Inv(marshal, s) && Can(s, PcOf(s, id), step)
    ensures Inv(marshal, Apply(marshal, s, id, step))
  {
    hide Delivered;
    var t := Apply(marshal, s, id, step);
    assert forall other: nat :: other != id ==> PcOf(t, other) == PcOf(s, other);
  }

  lemma {:induction false} InvRun(marshal: Marshal, run: seq<State>, who: seq<nat>, what: seq<Step>, i: nat)
    requires marshal([]) == "[]" && IsRun(marshal, run, who, what) && i < |run|
    ensures Inv(marshal, run[i])
  {
    if i > 0 {
      InvRun(marshal, run, who, what, i - 1);
      InvStep(marshal, run[i - 1], who[i - 1], what[i - 1]);
    }
  }

  // ---- What the steps have delivered -----------------------------------------------------------------

  /** The deliveries since the list was last cleared, read off the steps alone. */
  function Made(what: seq<Step>): seq<Delivery> {
    if what == [] then []
    else
      match what[|what| - 1]
      case Deliver(d) => Made(what[..|what| - 1]) + [d]
      case ClearList => []
      case _ => Made(what[..|what| - 1])
  }

  /** Of these, what the Adds that have released the lock since the last reset had delivered. */
  function Committed(what: seq<Step>): seq<Delivery> {
    if what == [] then []
    else
      match what[|what| - 1]
      case UnlockAdd => Made(what)
      case StoreEmpty => []
      case _ => Committed(what[..|what| - 1])
  }

  /** The list is the fold of the deliveries made, the committed list of those committed. */
  ghost predicate Folded(mem: Memory, what: seq<Step>) {
    Folds(mem.messages, Made(what)) && Folds(mem.committed, Committed(what))
  }

  lemma FoldedStep(marshal: Marshal, s: State, id: nat, what: seq<Step>, step: Step)
    requires Folded(s.mem, what)
    ensures Folded(Apply(marshal, s, id, step).mem, what + [step])
  {
    hide Folds, Delivered;
    EmptyFolds();
    assert (what + [step])[..|what + [step]| - 1] == what;
    match step
    case Deliver(d) => DeliveredFolds(s.mem.messages, Made(what), d);
    case _ =>
  }

  lemma EmptyFolds()
    ensures Folds([], [])
  {}

  /** In every run list and committed list are the per-id folds of what the steps so far delivered and committed. */
  lemma {:induction false} FoldedRun(marshal: Marshal, run: seq<State>, who: seq<nat>, what: seq<Step>, i: nat)
    requires IsRun(marshal, run, who, what) && i < |run|
    ensures Folds(run[i].mem.messages, Made(what[..i]))
    ensures Folds(run[i].mem.committed, Committed(what[..i]))
  {
    if i == 0 {
      EmptyFolds();
    } else {
      hide Folds, Apply, Can, Made, Committed;
      FoldedRun(marshal, run, who, what, i - 1);
      FoldedStep(marshal, run[i - 1], who[i - 1], what[..i - 1], what[i - 1]);
      assert what[..i - 1] + [what[i - 1]] == what[..i];
    }
  }

  // ---- Linearizability ------------------------------------------------------------------------------

  /**
   * Any step while a call is under way: the call goes on, and if it is now past its check, either it
   * was before and the cache did not change, or the cache now renders the committed list.
   */
  lemma CallStep(marshal: Marshal, s: State, id: nat, step: Step, reader: nat)
    requires marshal([]) == "[]" && Inv(marshal, s) && Can(s, PcOf(s, id), step)
    requires Reading(PcOf(s, reader)) && (id == reader ==> !step.CallGet? && !step.LoadCache?)
    ensures var t := Apply(marshal, s, id, step);
            && Reading(PcOf(t, reader))
            && (PcOf(t, reader).Loading? ==>
                 (PcOf(s, reader).Loading? && t.mem.cache == s.mem.cache) || t.mem.cache == marshal(t.mem.committed))
  {}

  ghost predicate CachedSince(marshal: Marshal, run: seq<State>, from: nat, now: nat, bytes: string)
    requires now < |run|
  {
    exists t :: from <= t <= now && bytes == marshal(run[t].mem.committed)
  }

  predicate Reading(pc: Pc) {
    pc.Begun? || pc.Waiting? || pc.Checking? || pc.Rendered? || pc.Refreshed? || pc.Leaving? || pc.Loading?
  }

  predicate InCall(who: seq<nat>, what: seq<Step>, from: nat, to: nat, reader: nat)
    requires from <= to <= |what| && |who| == |what|
  {
    forall i :: from < i < to ==> who[i] == reader ==> !what[i].CallGet? && !what[i].LoadCache?
  }

  /** Once a call has got past its check, the cache is never older than the call. */
  lemma {:induction false} CallSoFar(marshal: Marshal, run: seq<State>, who: seq<nat>, what: seq<Step>,
                                     from: nat, now: nat, reader: nat)
    requires marshal([]) == "[]" && IsRun(marshal, run, who, what) && from < now <= |what|
    requires who[from] == reader && what[from] == CallGet && InCall(who, what, from, now, reader)
    ensures Reading(PcOf(run[now], reader))
    ensures PcOf(run[now], reader).Loading? ==> CachedSince(marshal, run, from, now, run[now].mem.cache)
  {
    if now - 1 > from {
      CallSoFar(marshal, run, who, what, from, now - 1, reader);
      InvRun(marshal, run, who, what, now - 1);
      CallStep(marshal, run[now - 1], who[now - 1], what[now - 1], reader);
      if PcOf(run[now], reader).Loading? && run[now].mem.cache != marshal(run[now].mem.committed) {
        SinceStill(marshal, run, from, now - 1, run[now].mem.cache);
      }
    }
  }

  lemma SinceStill(marshal: Marshal, run: seq<State>, from: nat, now: nat, bytes: string)
    requires now + 1 < |run| && CachedSince(marshal, run, from, now, bytes)
    ensures CachedSince(marshal, run, from, now + 1, bytes)
  {
    var t :| from <= t <= now && bytes == marshal(run[t].mem.committed);
  }

  /**
   * Linearizability: in every run, what a call of GetMessagesBytes returns is the rendering of the
   * per-id fold of the deliveries that the steps up to some moment between its start and its return
   * had committed.
   */
  lemma Linearizable(marshal: Marshal, run: seq<State>, who: seq<nat>, what: seq<Step>, from: nat, to: nat, reader: nat)
    requires marshal([]) == "[]" && IsRun(marshal, run, who, what) && from < to < |what|
    requires who[from] == who[to] == reader && what[from] == CallGet && what[to] == LoadCache
    requires InCall(who, what, from, to, reader)
    ensures PcOf(run[to + 1], reader).Done?
    ensures exists t :: from <= t <= to && PcOf(run[to + 1], reader).bytes == marshal(run[t].mem.committed)
                        && Folds(run[t].mem.committed, Committed(what[..t]))
  {
    CallSoFar(marshal, run, who, what, from, to, reader);
    assert run[to + 1] == Apply(marshal, run[to], reader, LoadCache);
    var t :| from <= t <= to && run[to].mem.cache == marshal(run[t].mem.committed);
    FoldedRun(marshal, run, who, what, t);
  }

  /** The cache is rendered anew only while the flag is dirty: of several waiting callers one does the work. */
  lemma RendersOnlyDirty(marshal: Marshal, run: seq<State>, who: seq<nat>, what: seq<Step>, i: nat)
    requires marshal([]) == "[]" && IsRun(marshal, run, who, what) && i < |what| && what[i] == StoreCache
    ensures run[i].mem.dirty && run[i + 1].mem.cache == marshal(run[i].mem.messages)
  {
    InvRun(marshal, run, who, what, i);
    assert run[i].lock == Some(who[i]);
  }

  /** Whoever holds the lock always has a next step, so a waiting caller never waits for nobody. */
  lemma NoDeadlock(marshal: Marshal, run: seq<State>, who: seq<nat>, what: seq<Step>, i: nat)
    requires marshal([]) == "[]" && IsRun(marshal, run, who, what) && i < |run| && run[i].lock.Some?
    ensures exists step :: Can(run[i], PcOf(run[i], run[i].lock.value), step)
  {
    InvRun(marshal, run, who, what, i);
    var pc := PcOf(run[i], run[i].lock.value);
    var step :=
      match pc
      case Checking => Recheck
      case Rendered(_) => StoreCache
      case Refreshed => StoreClean
      case Leaving => UnlockGet
      case Editing(_) => StoreDirty
      case Marked => UnlockAdd
      case Clearing => ClearList
      case Cleared => StoreEmpty
      case Emptied => StoreCleanReset
      case _ => UnlockReset;
    assert Can(run[i], pc, step);
  }
}
