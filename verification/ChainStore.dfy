/**
 * The life of a message in one backend process, as interleaved atomic steps.
 *
 * Every step is one lock region (or one queue operation) of app.py and db.py, so any
 * interleaving of concurrent posts with the background writer is a sequence of steps.
 * `Commit` may come earlier than the writer's own loop would choose, which only adds runs.
 */
module ChainStore {
  import opened HashChain
  import opened Options

  const QUEUE_MAX := 200000
  const BATCH_MAX := 200

  datatype FeedItem = FeedItem(msgId: string, username: string, plaintext: string, timestamp: int)

  /** How far a post has come. `QueueFull` is a save that found the queue full and waits for the table. */
  datatype Post =
    | Checked(msgId: string)
    | Linked(row: Row)
    | Claimed(row: Row)
    | InFeed(row: Row)
    | QueueFull(row: Row)

  /**
   * `issued` and `accepted` are history: the rows `get_next_hashes` has linked and the ids whose
   * save was accepted since this start-up, the rows and ids found in the table at start-up first.
   */
  datatype State = State(
    lastHash: string, issued: seq<Row>, seen: set<string>, accepted: seq<string>, feed: seq<FeedItem>,
    queue: seq<Row>, batch: seq<Row>, table: seq<Row>, posts: map<nat, Post>)

  datatype Step =
    | Check(p: nat, id: string)
    | Link(p: nat, username: string, plaintext: string, ciphertext: string, signature: string,
           pubkey: string, timestamp: int)
    | Claim(p: nat)
    | Append(p: nat)
    | Put(p: nat)
    | InsertNow(p: nat)
    | Take
    | Commit
    | Drop(written: nat)

  function ItemOf(row: Row): FeedItem {
    FeedItem(row.msgId, row.username, row.plaintext, row.timestamp)
  }

  function Items(rows: seq<Row>): seq<FeedItem> {
    seq(|rows|, i requires 0 <= i < |rows| => ItemOf(rows[i]))
  }

  function IdList(rows: seq<Row>): seq<string> {
    seq(|rows|, i requires 0 <= i < |rows| => rows[i].msgId)
  }

  function Ids(rows: seq<Row>): set<string> {
    set i | 0 <= i < |rows| :: rows[i].msgId
  }

  predicate HasId(rows: seq<Row>, id: string) {
    exists i :: 0 <= i < |rows| && rows[i].msgId == id
  }

  predicate DistinctIds(rows: seq<Row>) {
    forall i, j :: 0 <= i < j < |rows| ==> rows[i].msgId != rows[j].msgId
  }

  /** `INSERT OR IGNORE` on the table's UNIQUE msg_id. */
  function InsertOrIgnore(table: seq<Row>, row: Row): seq<Row> {
    if HasId(table, row.msgId) then table else table + [row]
  }

  function InsertAll(table: seq<Row>, rows: seq<Row>): seq<Row>
    decreases rows
  {
    if rows == [] then table else InsertAll(InsertOrIgnore(table, rows[0]), rows[1..])
  }

  /** `init_db` followed by `_last_hash_val = db.get_last_hash()`. */
  function StartUp(table: seq<Row>): State {
    State(Tail(table), table, Ids(table), IdList(table), Items(table), [], [], table, map[])
  }

  /** The row built from a link: `prev_hash` is the tail, `record_hash` the new tail. */
  function LinkedRow(h: string -> string, lastHash: string, msgId: string, step: Step): Row
    requires step.Link?
  {
    var f := Hashed(lastHash, step.username, step.ciphertext, step.signature, step.timestamp);
    Row(msgId, step.username, step.plaintext, step.ciphertext, step.signature, step.pubkey, step.timestamp,
        lastHash, ComputeRecordHash(h, f))
  }

  predicate Enabled(s: State, step: Step) {
    match step
    case Check(p, _) => p !in s.posts
    case Link(p, _, _, _, _, _, _) => p in s.posts && s.posts[p].Checked?
    case Claim(p) => p in s.posts && s.posts[p].Linked?
    case Append(p) => p in s.posts && s.posts[p].Claimed?
    case Put(p) => p in s.posts && s.posts[p].InFeed?
    case InsertNow(p) => p in s.posts && s.posts[p].QueueFull?
    case Take => s.queue != [] && |s.batch| < BATCH_MAX
    case Commit => s.batch != []
    case Drop(written) => s.batch != [] && written <= |s.batch|
  }

  /** `message_exists`: a post with a seen id answers "duplicate" and goes no further. */
  function CheckId(s: State, p: nat, id: string): State {
    if id in s.seen then s else s.(posts := s.posts[p := Checked(id)])
  }

  /** `get_next_hashes`, under the hash-chain lock. */
  function LinkPost(h: string -> string, s: State, step: Step): State
    requires step.Link? && Enabled(s, step)
  {
    var row := LinkedRow(h, s.lastHash, s.posts[step.p].msgId, step);
    s.(lastHash := row.recordHash, issued := s.issued + [row], posts := s.posts[step.p := Linked(row)])
  }

  /** The seen-set test and insertion of `save_message`, under the seen lock. */
  function ClaimId(s: State, p: nat): State
    requires Enabled(s, Claim(p))
  {
    var row := s.posts[p].row;
    if row.msgId in s.seen then s.(posts := s.posts - {p})
    else s.(seen := s.seen + {row.msgId}, accepted := s.accepted + [row.msgId], posts := s.posts[p := Claimed(row)])
  }

  /** The feed append of `save_message`, under the feed lock. */
  function AppendFeed(s: State, p: nat): State
    requires Enabled(s, Append(p))
  {
    var row := s.posts[p].row;
    s.(feed := s.feed + [ItemOf(row)], posts := s.posts[p := InFeed(row)])
  }

  /** `put_nowait`. */
  function PutQueue(s: State, p: nat): State
    requires Enabled(s, Put(p))
  {
    var row := s.posts[p].row;
    if |s.queue| < QUEUE_MAX then s.(queue := s.queue + [row], posts := s.posts - {p})
    else s.(posts := s.posts[p := QueueFull(row)])
  }

  /** The direct insert after `queue.Full`, under the database lock. */
  function InsertDirect(s: State, p: nat): State
    requires Enabled(s, InsertNow(p))
  {
    s.(table := InsertOrIgnore(s.table, s.posts[p].row), posts := s.posts - {p})
  }

  function TakeRow(s: State): State
    requires Enabled(s, Take)
  {
    s.(queue := s.queue[1..], batch := s.batch + [s.queue[0]])
  }

  /**
   * The writer's transaction.  When it fails, SQLite keeps the rows inserted before the failing one
   * in the open transaction and the rest of the batch is lost; a success writes them all.
   */
  function WriteBatch(s: State, written: nat): State
    requires written <= |s.batch|
  {
    s.(table := InsertAll(s.table, s.batch[..written]), batch := [])
  }

  function Apply(h: string -> string, s: State, step: Step): State
    requires Enabled(s, step)
  {
    match step
    case Check(p, id) => CheckId(s, p, id)
    case Link(p, _, _, _, _, _, _) => LinkPost(h, s, step)
    case Claim(p) => ClaimId(s, p)
    case Append(p) => AppendFeed(s, p)
    case Put(p) => PutQueue(s, p)
    case InsertNow(p) => InsertDirect(s, p)
    case Take => TakeRow(s)
    case Commit => WriteBatch(s, |s.batch|)
    case Drop(written) => WriteBatch(s, written)
  }

  /** `steps` lead from s to t, each one enabled and permitted by `allowed`. */
  predicate Reaches(h: string -> string, allowed: (State, Step) -> bool, s: State, steps: seq<Step>, t: State)
    decreases steps
  {
    if steps == [] then s == t
    else Enabled(s, steps[0]) && allowed(s, steps[0]) && Reaches(h, allowed, Apply(h, s, steps[0]), steps[1..], t)
  }

  /** Anything may happen. */
  predicate Any(s: State, step: Step) {
    true
  }

  /** The writer never fails. */
  predicate Lossless(s: State, step: Step) {
    !step.Drop?
  }

  /** Posts one at a time, never a full queue, no writer failure. */
  predicate Solo(s: State, step: Step) {
    !step.Drop?
    && (step.Check? ==> s.posts == map[])
    && (step.Put? ==> |s.queue| < QUEUE_MAX)
  }

  // ---- What INSERT OR IGNORE does to a table -------------------------------------------

  lemma {:induction false} InsertAllDrawn(table: seq<Row>, rows: seq<Row>, r: seq<Row>)
    requires DrawnFrom(table, r) && DrawnFrom(rows, r)
    ensures DrawnFrom(InsertAll(table, rows), r)
    decreases rows
  {
    if rows != [] {
      assert rows[0] in r;
      InsertAllDrawn(InsertOrIgnore(table, rows[0]), rows[1..], r);
    }
  }

  /** The UNIQUE constraint: ids stay distinct whatever is inserted, and a row lands exactly when its id is new. */
  lemma {:induction false} InsertAllUnique(table: seq<Row>, rows: seq<Row>)
    requires DistinctIds(table)
    ensures DistinctIds(InsertAll(table, rows)) && table <= InsertAll(table, rows)
    ensures forall k :: 0 <= k < |rows| ==> HasId(InsertAll(table, rows), rows[k].msgId)
    ensures rows != [] ==> (rows[0] in InsertAll(table, rows)[|table|..] <==> !HasId(table, rows[0].msgId))
    decreases rows
  {
    if rows != [] {
      var more := InsertOrIgnore(table, rows[0]);
      InsertAllUnique(more, rows[1..]);
      InsertedFirst(table, rows[0], InsertAll(more, rows[1..]));
      forall k | 0 <= k < |rows| ensures HasId(InsertAll(table, rows), rows[k].msgId) {
        if k > 0 { assert rows[1..][k - 1] == rows[k]; }
      }
    }
  }

  lemma InsertedFirst(table: seq<Row>, row: Row, all: seq<Row>)
    requires InsertOrIgnore(table, row) <= all && DistinctIds(all)
    ensures HasId(all, row.msgId) && (row in all[|table|..] <==> !HasId(table, row.msgId))
  {
    if HasId(table, row.msgId) {
      var i :| 0 <= i < |table| && table[i].msgId == row.msgId;
      assert all[i] == table[i];
      forall k | 0 <= k < |all[|table|..]| ensures all[|table|..][k] != row {
        assert all[|table|..][k] == all[|table| + k];
      }
    } else {
      assert all[|table|] == row && all[|table|..][0] == row;
    }
  }

  lemma {:induction false} InsertAllDistinct(table: seq<Row>, rows: seq<Row>)
    requires DistinctIds(table + rows)
    ensures InsertAll(table, rows) == table + rows
    decreases rows
  {
    if rows != [] {
      var all := table + rows;
      assert all[|table|] == rows[0];
      assert forall i :: 0 <= i < |table| ==> all[i] == table[i];
      assert table + rows == (table + [rows[0]]) + rows[1..];
      InsertAllDistinct(table + [rows[0]], rows[1..]);
    } else {
      assert table + rows == table;
    }
  }

  // ---- The chain under every interleaving ----------------------------------------------

  predicate PostsIssued(posts: map<nat, Post>, r: seq<Row>) {
    forall p :: p in posts && !posts[p].Checked? ==> posts[p].row in r
  }

  predicate RowsIssued(s: State, r: seq<Row>) {
    DrawnFrom(s.table, r) && DrawnFrom(s.batch, r) && DrawnFrom(s.queue, r) && PostsIssued(s.posts, r)
  }

  /** Each issued row records the link it was built from. */
  predicate RecordsLinks(rows: seq<Row>) {
    forall i :: 0 <= i < |rows| ==> rows[i].prevHash == PrevOf(rows, i)
  }

  predicate IntactLog(h: string -> string, rows: seq<Row>) {
    Verifies(h, rows) && RecordsLinks(rows)
  }

  ghost predicate ChainInv(h: string -> string, s: State) {
    IntactLog(h, s.issued) && s.lastHash == Tail(s.issued) && RowsIssued(s, s.issued)
  }

  lemma IntactLogAppend(h: string -> string, rows: seq<Row>, row: Row)
    requires IntactLog(h, rows) && row.prevHash == Tail(rows) && VerifyRecord(h, row, row.prevHash)
    ensures IntactLog(h, rows + [row])
  {
    VerifiesAppend(h, rows, row);
    var more := rows + [row];
    forall i | 0 <= i < |more| ensures more[i].prevHash == PrevOf(more, i) {
      if i < |rows| {
        assert PrevOf(more, i) == PrevOf(rows, i);
      }
    }
  }

  lemma DrawnFromMore(s: seq<Row>, r: seq<Row>, row: Row)
    requires DrawnFrom(s, r)
    ensures DrawnFrom(s, r + [row])
  {
    forall i | 0 <= i < |s| ensures s[i] in r + [row] {
      assert s[i] in r;
    }
  }

  lemma DrawnFromSnoc(s: seq<Row>, row: Row, r: seq<Row>)
    requires DrawnFrom(s, r) && row in r
    ensures DrawnFrom(s + [row], r)
  {}

  lemma ChainInvLink(h: string -> string, s: State, step: Step)
    requires ChainInv(h, s) && step.Link? && Enabled(s, step)
    ensures ChainInv(h, LinkPost(h, s, step))
  {
    var row := LinkedRow(h, s.lastHash, s.posts[step.p].msgId, step);
    IntactLogAppend(h, s.issued, row);
    DrawnFromMore(s.table, s.issued, row);
    DrawnFromMore(s.batch, s.issued, row);
    DrawnFromMore(s.queue, s.issued, row);
    LinkPosts(s.posts, s.issued, step.p, row);
  }

  lemma LinkPosts(posts: map<nat, Post>, r: seq<Row>, p: nat, row: Row)
    requires PostsIssued(posts, r)
    ensures PostsIssued(posts[p := Linked(row)], r + [row])
  {
    assert (r + [row])[|r|] == row;
  }

  lemma ChainInvPosts(h: string -> string, s: State, t: State)
    requires ChainInv(h, s) && PostsIssued(t.posts, s.issued)
    requires t.issued == s.issued && t.lastHash == s.lastHash
    requires t.table == s.table && t.batch == s.batch && t.queue == s.queue
    ensures ChainInv(h, t)
  {}

  lemma ChainInvRows(h: string -> string, s: State, t: State)
    requires ChainInv(h, s) && RowsIssued(t, s.issued)
    requires t.issued == s.issued && t.lastHash == s.lastHash
    ensures ChainInv(h, t)
  {}

  lemma ChainInvClaim(h: string -> string, s: State, p: nat)
    requires ChainInv(h, s) && Enabled(s, Claim(p))
    ensures ChainInv(h, ClaimId(s, p))
  {
    ChainInvPosts(h, s, ClaimId(s, p));
  }

  lemma ChainInvAppend(h: string -> string, s: State, p: nat)
    requires ChainInv(h, s) && Enabled(s, Append(p))
    ensures ChainInv(h, AppendFeed(s, p))
  {
    ChainInvPosts(h, s, AppendFeed(s, p));
  }

  lemma ChainInvPut(h: string -> string, s: State, p: nat)
    requires ChainInv(h, s) && Enabled(s, Put(p))
    ensures ChainInv(h, PutQueue(s, p))
  {
    DrawnFromSnoc(s.queue, s.posts[p].row, s.issued);
    ChainInvRows(h, s, PutQueue(s, p));
  }

  lemma ChainInvInsert(h: string -> string, s: State, p: nat)
    requires ChainInv(h, s) && Enabled(s, InsertNow(p))
    ensures ChainInv(h, InsertDirect(s, p))
  {
    DrawnFromSnoc(s.table, s.posts[p].row, s.issued);
    ChainInvRows(h, s, InsertDirect(s, p));
  }

  lemma ChainInvTake(h: string -> string, s: State)
    requires ChainInv(h, s) && Enabled(s, Take)
    ensures ChainInv(h, TakeRow(s))
  {
    assert s.queue[0] in s.issued;
    DrawnFromSnoc(s.batch, s.queue[0], s.issued);
    ChainInvRows(h, s, TakeRow(s));
  }

  lemma ChainInvWrite(h: string -> string, s: State, written: nat)
    requires ChainInv(h, s) && written <= |s.batch|
    ensures ChainInv(h, WriteBatch(s, written))
  {
    InsertAllDrawn(s.table, s.batch[..written], s.issued);
    ChainInvRows(h, s, WriteBatch(s, written));
  }

  lemma ChainInvStep(h: string -> string, s: State, step: Step)
    requires ChainInv(h, s) && Enabled(s, step)
    ensures ChainInv(h, Apply(h, s, step))
  {
    match step
    case Check(p, id) => ChainInvPosts(h, s, CheckId(s, p, id));
    case Link(_, _, _, _, _, _, _) => ChainInvLink(h, s, step);
    case Claim(p) => ChainInvClaim(h, s, p);
    case Append(p) => ChainInvAppend(h, s, p);
    case Put(p) => ChainInvPut(h, s, p);
    case InsertNow(p) => ChainInvInsert(h, s, p);
    case Take => ChainInvTake(h, s);
    case Commit => ChainInvWrite(h, s, |s.batch|);
    case Drop(written) => ChainInvWrite(h, s, written);
  }

  lemma {:induction false} ChainInvRun(h: string -> string, s: State, steps: seq<Step>, t: State)
    requires ChainInv(h, s) && Reaches(h, Any, s, steps, t)
    ensures ChainInv(h, t)
    decreases steps
  {
    if steps != [] {
      ChainInvStep(h, s, steps[0]);
      ChainInvRun(h, Apply(h, s, steps[0]), steps[1..], t);
    }
  }

  lemma StartIsChained(h: string -> string, table: seq<Row>)
    requires IntactLog(h, table)
    ensures ChainInv(h, StartUp(table))
  {}

  lemma ChainedIsDrawn(h: string -> string, t: State)
    requires ChainInv(h, t)
    ensures DrawnFrom(t.table, t.issued) && IntactLog(h, t.issued) && Verifies(h, t.issued)
  {}

  /**
   * From a start-up over an empty (or any intact) table, whatever the interleaving of posts, writer
   * batches, duplicate races, full-queue inserts and failed batches: stored rows come from the
   * issued link log, and the table verifies exactly when it is a prefix of that log, or else a
   * break of the hash function is at hand.
   */
  lemma TableVerifiesIffPrefix(h: string -> string, table: seq<Row>, steps: seq<Step>, t: State)
    requires Sha256Shape(h) && IntactLog(h, table)
    requires Reaches(h, Any, StartUp(table), steps, t)
    ensures DrawnFrom(t.table, t.issued) && IntactLog(h, t.issued)
    ensures t.table <= t.issued ==> Verifies(h, t.table)
    ensures Verifies(h, t.table) ==> match SelectionBreak(t.issued, t.table)
                                     case Some(w) => IsBreak(h, w)
                                     case None => t.table <= t.issued
  {
    hide Reaches, ChainInv, IntactLog, DrawnFrom, Verifies, SelectionBreak, StartUp, IsBreak;
    StartIsChained(h, table);
    ChainInvRun(h, StartUp(table), steps, t);
    ChainedIsDrawn(h, t);
    SelectionVerifiesIffPrefix(h, t.issued, t.table);
  }

  // ---- A duplicate race leaves a table that no longer verifies --------------------------

  /** Two posts with the same id pass the early check and both draw a link; then the later one is stored. */
  function RaceAt(k: nat): Step {
    match k
    case 0 => Check(0, "m")
    case 1 => Check(1, "m")
    case 2 => Link(0, "u", "x", "c0", "s0", "k", 1)
    case 3 => Link(1, "u", "x", "c1", "s1", "k", 1)
    case 4 => Claim(1)
    case 5 => Claim(0)
    case 6 => Append(1)
    case 7 => Put(1)
    case 8 => Take
    case _ => Commit
  }

  function Race(k: nat): seq<Step> {
    if k == 0 then [] else Race(k - 1) + [RaceAt(k - 1)]
  }

  lemma {:induction false} ReachesSnoc(h: string -> string, allowed: (State, Step) -> bool,
                                       s: State, steps: seq<Step>, t: State, step: Step)
    requires Reaches(h, allowed, s, steps, t) && Enabled(t, step) && allowed(t, step)
    ensures Reaches(h, allowed, s, steps + [step], Apply(h, t, step))
    decreases steps
  {
    if steps == [] {
      assert [] + [step] == [step] && [step][1..] == [];
    } else {
      assert (steps + [step])[1..] == steps[1..] + [step];
      ReachesSnoc(h, allowed, Apply(h, s, steps[0]), steps[1..], t, step);
    }
  }

  lemma {:induction false} SoloIsLossless(h: string -> string, s: State, steps: seq<Step>, t: State)
    requires Reaches(h, Solo, s, steps, t)
    ensures Reaches(h, Lossless, s, steps, t)
    decreases steps
  {
    if steps != [] {
      SoloIsLossless(h, Apply(h, s, steps[0]), steps[1..], t);
    }
  }

  lemma RaceStart(h: string -> string) returns (t: State)
    ensures Reaches(h, Any, StartUp([]), Race(4), t)
    ensures |t.issued| == 2 && t.seen == {} && t.accepted == [] && t.feed == []
    ensures t.queue == [] && t.batch == [] && t.table == []
    ensures t.issued[0].msgId == t.issued[1].msgId == "m"
    ensures t.issued[0].ciphertext == "c0" && t.issued[1].ciphertext == "c1"
    ensures t.posts == map[0 := Linked(t.issued[0]), 1 := Linked(t.issued[1])]
  {
    var s0 := StartUp([]);
    var s2 := RaceChecks(h);
    var s3 := Apply(h, s2, RaceAt(2));
    RaceStep(h, s0, 2, s2, RaceAt(2));
    t := Apply(h, s3, RaceAt(3));
    RaceStep(h, s0, 3, s3, RaceAt(3));
  }

  lemma RaceChecks(h: string -> string) returns (t: State)
    ensures Reaches(h, Any, StartUp([]), Race(2), t)
    ensures t == StartUp([]).(posts := map[0 := Checked("m"), 1 := Checked("m")])
  {
    var s0 := StartUp([]);
    var s1 := Apply(h, s0, RaceAt(0));
    RaceStep(h, s0, 0, s0, RaceAt(0));
    t := Apply(h, s1, RaceAt(1));
    RaceStep(h, s0, 1, s1, RaceAt(1));
  }

  lemma RaceStep(h: string -> string, s0: State, k: nat, s: State, step: Step)
    requires step == RaceAt(k) && Reaches(h, Any, s0, Race(k), s) && Enabled(s, step)
    ensures Reaches(h, Any, s0, Race(k + 1), Apply(h, s, step))
  {
    ReachesSnoc(h, Any, s0, Race(k), s, step);
  }

  /** The later post claims the id, the earlier one finds it claimed. */
  lemma RaceClaims(h: string -> string, s0: State, s: State) returns (t: State)
    requires Reaches(h, Any, s0, Race(4), s)
    requires |s.issued| == 2 && s.seen == {} && s.issued[0].msgId == s.issued[1].msgId
    requires s.posts == map[0 := Linked(s.issued[0]), 1 := Linked(s.issued[1])]
    ensures Reaches(h, Any, s0, Race(6), t)
    ensures t.posts == map[1 := Claimed(s.issued[1])]
    ensures t.queue == s.queue && t.batch == s.batch && t.table == s.table && t.issued == s.issued
  {
    var s1 := Apply(h, s, Claim(1));
    RaceStep(h, s0, 4, s, Claim(1));
    t := Apply(h, s1, Claim(0));
    RaceStep(h, s0, 5, s1, Claim(0));
    assert t.posts == map[1 := Claimed(s.issued[1])];
  }

  lemma RaceQueues(h: string -> string, s0: State, s: State, row: Row) returns (t: State)
    requires Reaches(h, Any, s0, Race(6), s)
    requires s.posts == map[1 := Claimed(row)] && s.queue == [] && s.batch == [] && s.table == []
    ensures Reaches(h, Any, s0, Race(8), t)
    ensures t.posts == map[] && t.queue == [row] && t.batch == [] && t.table == [] && t.issued == s.issued
  {
    var s1 := Apply(h, s, Append(1));
    RaceStep(h, s0, 6, s, Append(1));
    t := Apply(h, s1, Put(1));
    RaceStep(h, s0, 7, s1, Put(1));
    assert t.posts == map[];
  }

  lemma RaceWrites(h: string -> string, s0: State, s: State, row: Row) returns (t: State)
    requires Reaches(h, Any, s0, Race(8), s)
    requires s.posts == map[] && s.queue == [row] && s.batch == [] && s.table == []
    ensures Reaches(h, Any, s0, Race(10), t)
    ensures t.posts == map[] && t.queue == [] && t.batch == [] && t.issued == s.issued && t.table == [row]
  {
    var s1 := Apply(h, s, Take);
    RaceStep(h, s0, 8, s, Take);
    assert s1.batch == [row] && s1.queue == [];
    t := Apply(h, s1, Commit);
    CommitOne(h, s1, row);
    RaceStep(h, s0, 9, s1, Commit);
  }

  lemma CommitOne(h: string -> string, s: State, row: Row)
    requires s.table == [] && s.batch == [row]
    ensures var t := Apply(h, s, Commit); t.table == [row] && t == s.(batch := [], table := t.table)
  {
    assert s.batch[..1] == [row] && s.batch[1..] == [];
    assert InsertOrIgnore([], row) == [row];
    assert InsertAll([], [row]) == InsertAll([row], [row][1..]);
  }

  /**
   * Without any tampering, a duplicate race ends (everything stored, nothing in flight) with a
   * table that does not verify, unless the hash function is broken by the two links it drew.
   */
  lemma DuplicateRaceBreaksChain(h: string -> string)
    requires Sha256Shape(h)
    ensures exists t: State ::
              && Reaches(h, Any, StartUp([]), Race(10), t)
              && t.posts == map[] && t.queue == [] && t.batch == []
              && DrawnFrom(t.table, t.issued) && !(t.table <= t.issued)
              && (Verifies(h, t.table) ==>
                    SelectionBreak(t.issued, t.table).Some? && IsBreak(h, SelectionBreak(t.issued, t.table).value))
  {
    hide Reaches, Race;
    var s := RaceStart(h);
    var row := s.issued[1];
    var s' := RaceClaims(h, StartUp([]), s);
    s' := RaceQueues(h, StartUp([]), s', row);
    var t := RaceWrites(h, StartUp([]), s', row);
    TableVerifiesIffPrefix(h, [], Race(10), t);
    assert t.table[0] != t.issued[0];
  }

  // ---- Exactly once in memory ----------------------------------------------------------

  function Stored(s: State): seq<Row> {
    s.table + s.batch + s.queue
  }

  predicate HasItem(feed: seq<FeedItem>, id: string) {
    exists i :: 0 <= i < |feed| && feed[i].msgId == id
  }

  predicate DistinctItems(feed: seq<FeedItem>) {
    forall i, j :: 0 <= i < j < |feed| ==> feed[i].msgId != feed[j].msgId
  }

  predicate DistinctStrings(a: seq<string>) {
    forall i, j :: 0 <= i < j < |a| ==> a[i] != a[j]
  }

  /** The save has been accepted and has not reached queue or table yet. */
  predicate Saving(post: Post) {
    post.Claimed? || post.InFeed? || post.QueueFull?
  }

  /** Its feed item is there, its row is not stored yet. */
  predicate Unstored(post: Post) {
    post.InFeed? || post.QueueFull?
  }

  ghost predicate SavesApart(posts: map<nat, Post>) {
    forall p, q :: p in posts && q in posts && p != q && Saving(posts[p]) && Saving(posts[q]) ==>
      posts[p].row.msgId != posts[q].row.msgId
  }

  ghost predicate SavesPlaced(posts: map<nat, Post>, seen: set<string>, feed: seq<FeedItem>, stored: seq<Row>) {
    && (forall p :: p in posts && Saving(posts[p]) ==>
          posts[p].row.msgId in seen && !HasId(stored, posts[p].row.msgId))
    && (forall p :: p in posts && Saving(posts[p]) ==>
          (HasItem(feed, posts[p].row.msgId) <==> Unstored(posts[p])))
  }

  /** No id is at two places, or twice at one. */
  ghost predicate AtMostOnce(s: State) {
    && DistinctStrings(s.accepted) && (forall id :: id in s.seen <==> id in s.accepted)
    && DistinctIds(Stored(s)) && DistinctItems(s.feed)
    && SavesApart(s.posts) && SavesPlaced(s.posts, s.seen, s.feed, Stored(s))
    && (forall id :: HasItem(s.feed, id) ==> id in s.seen)
    && (forall id :: HasId(Stored(s), id) ==> HasItem(s.feed, id))
  }

  ghost predicate HeldBy(posts: map<nat, Post>, id: string, feedSide: bool) {
    exists p :: p in posts && Saving(posts[p]) && Unstored(posts[p]) == feedSide && posts[p].row.msgId == id
  }

  /** Every seen id is on its way to the feed or in it, and every feed id on its way to a row or in one. */
  ghost predicate NothingLost(s: State) {
    && (forall id :: id in s.seen ==> HasItem(s.feed, id) || HeldBy(s.posts, id, false))
    && (forall id :: HasItem(s.feed, id) ==> HasId(Stored(s), id) || HeldBy(s.posts, id, true))
  }

  /**
   * Each id is accepted at most once, and every seen id is at exactly one place: a save that has
   * not reached the feed, a save that has, or one row of table, writer batch and queue.
   */
  ghost predicate ExactlyOnce(s: State) {
    AtMostOnce(s) && NothingLost(s)
  }

  lemma StoredAppend(rows: seq<Row>, row: Row)
    ensures forall id :: HasId(rows + [row], id) <==> HasId(rows, id) || row.msgId == id
    ensures DistinctIds(rows) && !HasId(rows, row.msgId) ==> DistinctIds(rows + [row])
  {
    var more := rows + [row];
    forall id ensures HasId(more, id) <==> HasId(rows, id) || row.msgId == id {
      assert more[|rows|] == row;
      if HasId(rows, id) {
        var i :| 0 <= i < |rows| && rows[i].msgId == id;
        assert more[i].msgId == id;
      }
    }
  }

  lemma StoredInsert(a: seq<Row>, b: seq<Row>, row: Row)
    ensures forall id :: HasId(a + [row] + b, id) <==> HasId(a + b, id) || row.msgId == id
    ensures DistinctIds(a + b) && !HasId(a + b, row.msgId) ==> DistinctIds(a + [row] + b)
  {
    var was, now := a + b, a + [row] + b;
    assert now[|a|] == row;
    assert forall i :: 0 <= i < |was| ==> was[i] == now[if i < |a| then i else i + 1];
    assert forall i :: 0 <= i < |now| && i != |a| ==> now[i] == was[if i < |a| then i else i - 1];
    forall id ensures HasId(now, id) <==> HasId(was, id) || row.msgId == id {
      if HasId(was, id) {
        var i :| 0 <= i < |was| && was[i].msgId == id;
        assert now[if i < |a| then i else i + 1].msgId == id;
      }
      if HasId(now, id) && row.msgId != id {
        var i :| 0 <= i < |now| && now[i].msgId == id;
        assert was[if i < |a| then i else i - 1].msgId == id;
      }
    }
    if DistinctIds(was) && !HasId(was, row.msgId) {
      forall i, j | 0 <= i < j < |now| ensures now[i].msgId != now[j].msgId {
        if i == |a| {
          assert was[j - 1].msgId == now[j].msgId;
        } else if j == |a| {
          assert was[i].msgId == now[i].msgId;
        }
      }
    }
  }

  lemma FeedAppend(feed: seq<FeedItem>, item: FeedItem)
    ensures forall id :: HasItem(feed + [item], id) <==> HasItem(feed, id) || item.msgId == id
    ensures DistinctItems(feed) && !HasItem(feed, item.msgId) ==> DistinctItems(feed + [item])
  {
    var more := feed + [item];
    forall id ensures HasItem(more, id) <==> HasItem(feed, id) || item.msgId == id {
      assert more[|feed|] == item;
      if HasItem(feed, id) {
        var i :| 0 <= i < |feed| && feed[i].msgId == id;
        assert more[i].msgId == id;
      }
    }
  }

  lemma OnceCheckLink(h: string -> string, s: State, step: Step)
    requires ExactlyOnce(s) && Enabled(s, step) && (step.Check? || step.Link?)
    ensures ExactlyOnce(if step.Check? then CheckId(s, step.p, step.id) else LinkPost(h, s, step))
  {
    var t := if step.Check? then CheckId(s, step.p, step.id) else LinkPost(h, s, step);
    OnceOtherPosts(s, t);
  }

  /** Posts that are not saving come, go and change without consequence. */
  lemma OnceOtherPosts(s: State, t: State)
    requires ExactlyOnce(s)
    requires t.seen == s.seen && t.accepted == s.accepted && t.feed == s.feed && Stored(t) == Stored(s)
    requires forall p :: p in t.posts && Saving(t.posts[p]) ==> p in s.posts && s.posts[p] == t.posts[p]
    requires forall p :: p in s.posts && Saving(s.posts[p]) ==> p in t.posts && s.posts[p] == t.posts[p]
    ensures ExactlyOnce(t)
  {
    forall id, side | HeldBy(s.posts, id, side) ensures HeldBy(t.posts, id, side) {
      var p :| p in s.posts && Saving(s.posts[p]) && Unstored(s.posts[p]) == side && s.posts[p].row.msgId == id;
      assert p in t.posts && t.posts[p] == s.posts[p];
    }
  }

  lemma OnceClaim(s: State, p: nat)
    requires ExactlyOnce(s) && Enabled(s, Claim(p))
    ensures ExactlyOnce(ClaimId(s, p))
  {
    var t := ClaimId(s, p);
    var id := s.posts[p].row.msgId;
    if id in s.seen {
      OnceOtherPosts(s, t);
    } else {
      OnceClaimed(s, t, p, id);
    }
  }

  lemma OnceClaimed(s: State, t: State, p: nat, id: string)
    requires ExactlyOnce(s) && Enabled(s, Claim(p)) && id == s.posts[p].row.msgId && id !in s.seen
    requires t == ClaimId(s, p)
    ensures ExactlyOnce(t)
  {
    assert !HasItem(s.feed, id);
    assert !HasId(Stored(s), id);
    assert t.accepted[|s.accepted|] == id;
    assert HeldBy(t.posts, id, false) by { assert t.posts[p].row.msgId == id; }
    forall x, side | HeldBy(s.posts, x, side) ensures HeldBy(t.posts, x, side) {
      var q :| q in s.posts && Saving(s.posts[q]) && Unstored(s.posts[q]) == side && s.posts[q].row.msgId == x;
      assert q in t.posts && t.posts[q] == s.posts[q];
    }
  }

  lemma OnceAppend(s: State, p: nat)
    requires ExactlyOnce(s) && Enabled(s, Append(p))
    ensures ExactlyOnce(AppendFeed(s, p))
  {
    var t := AppendFeed(s, p);
    var id := s.posts[p].row.msgId;
    FeedAppend(s.feed, ItemOf(s.posts[p].row));
    assert HeldBy(t.posts, id, true) by { assert t.posts[p].row.msgId == id; }
    forall x, side | HeldBy(s.posts, x, side) && x != id ensures HeldBy(t.posts, x, side) {
      var q :| q in s.posts && Saving(s.posts[q]) && Unstored(s.posts[q]) == side && s.posts[q].row.msgId == x;
      assert q in t.posts && t.posts[q] == s.posts[q];
    }
  }

  /** A save ends: its row is stored and its post is gone. */
  lemma OnceSaved(s: State, t: State, p: nat)
    requires ExactlyOnce(s) && p in s.posts && Unstored(s.posts[p])
    requires t.seen == s.seen && t.accepted == s.accepted && t.feed == s.feed && t.posts == s.posts - {p}
    requires DistinctIds(Stored(t))
    requires forall id :: HasId(Stored(t), id) <==> HasId(Stored(s), id) || s.posts[p].row.msgId == id
    ensures ExactlyOnce(t)
  {
    var id := s.posts[p].row.msgId;
    assert forall q :: q in t.posts ==> q in s.posts && q != p && t.posts[q] == s.posts[q];
    forall x, side | HeldBy(s.posts, x, side) && x != id ensures HeldBy(t.posts, x, side) {
      var q :| q in s.posts && Saving(s.posts[q]) && Unstored(s.posts[q]) == side && s.posts[q].row.msgId == x;
      assert q in t.posts && t.posts[q] == s.posts[q];
    }
    assert HasId(Stored(t), id);
    forall x | x in t.seen ensures HasItem(t.feed, x) || HeldBy(t.posts, x, false) {
      if x == id { assert HasItem(s.feed, id); }
    }
  }

  lemma OncePut(s: State, p: nat)
    requires ExactlyOnce(s) && Enabled(s, Put(p))
    ensures ExactlyOnce(PutQueue(s, p))
  {
    var t := PutQueue(s, p);
    if |s.queue| < QUEUE_MAX {
      assert Stored(t) == Stored(s) + [s.posts[p].row];
      StoredAppend(Stored(s), s.posts[p].row);
      OnceSaved(s, t, p);
    } else {
      OnceQueueFull(s, t, p);
    }
  }

  lemma OnceQueueFull(s: State, t: State, p: nat)
    requires ExactlyOnce(s) && p in s.posts && s.posts[p].InFeed?
    requires t == s.(posts := s.posts[p := QueueFull(s.posts[p].row)])
    ensures ExactlyOnce(t)
  {
    forall x, side | HeldBy(s.posts, x, side) ensures HeldBy(t.posts, x, side) {
      var q :| q in s.posts && Saving(s.posts[q]) && Unstored(s.posts[q]) == side && s.posts[q].row.msgId == x;
      assert q in t.posts && Unstored(t.posts[q]) == side && t.posts[q].row.msgId == x;
    }
  }

  lemma HasIdPart(a: seq<Row>, b: seq<Row>, id: string)
    ensures HasId(a + b, id) <==> HasId(a, id) || HasId(b, id)
  {
    var all := a + b;
    if HasId(a, id) {
      var i :| 0 <= i < |a| && a[i].msgId == id;
      assert all[i].msgId == id;
    }
    if HasId(b, id) {
      var i :| 0 <= i < |b| && b[i].msgId == id;
      assert all[|a| + i].msgId == id;
    }
  }

  /** A direct insert is never ignored. */
  lemma DirectInsertLands(s: State, p: nat)
    requires AtMostOnce(s) && Enabled(s, InsertNow(p))
    ensures InsertDirect(s, p).table == s.table + [s.posts[p].row]
  {
    HasIdPart(s.table, s.batch + s.queue, s.posts[p].row.msgId);
    assert Stored(s) == s.table + (s.batch + s.queue);
  }

  lemma OnceInsert(s: State, p: nat)
    requires ExactlyOnce(s) && Enabled(s, InsertNow(p))
    ensures ExactlyOnce(InsertDirect(s, p))
  {
    var t := InsertDirect(s, p);
    DirectInsertLands(s, p);
    var rest := s.batch + s.queue;
    StoredInsert(s.table, rest, s.posts[p].row);
    assert Stored(s) == s.table + rest;
    assert Stored(t) == s.table + [s.posts[p].row] + rest;
    OnceSaved(s, t, p);
  }

  /** A batch is written whole: no row of it is ignored. */
  lemma CommitLands(s: State)
    requires DistinctIds(Stored(s))
    ensures WriteBatch(s, |s.batch|).table == s.table + s.batch
  {
    var stored := Stored(s);
    assert s.batch[..|s.batch|] == s.batch;
    forall i, j | 0 <= i < j < |s.table + s.batch|
      ensures (s.table + s.batch)[i].msgId != (s.table + s.batch)[j].msgId
    {
      assert stored[i] == (s.table + s.batch)[i] && stored[j] == (s.table + s.batch)[j];
    }
    InsertAllDistinct(s.table, s.batch);
  }

  lemma OnceWriter(s: State, step: Step)
    requires ExactlyOnce(s) && Enabled(s, step) && (step.Take? || step.Commit?)
    ensures ExactlyOnce(if step.Take? then TakeRow(s) else WriteBatch(s, |s.batch|))
  {
    if step.Take? {
      assert Stored(TakeRow(s)) == Stored(s);
      OnceOtherPosts(s, TakeRow(s));
    } else {
      CommitLands(s);
      assert Stored(WriteBatch(s, |s.batch|)) == Stored(s);
      OnceOtherPosts(s, WriteBatch(s, |s.batch|));
    }
  }

  lemma OnceStep(h: string -> string, s: State, step: Step)
    requires ExactlyOnce(s) && Enabled(s, step) && Lossless(s, step)
    ensures ExactlyOnce(Apply(h, s, step))
  {
    match step
    case Check(_, _) => OnceCheckLink(h, s, step);
    case Link(_, _, _, _, _, _, _) => OnceCheckLink(h, s, step);
    case Claim(p) => OnceClaim(s, p);
    case Append(p) => OnceAppend(s, p);
    case Put(p) => OncePut(s, p);
    case InsertNow(p) => OnceInsert(s, p);
    case Take => OnceWriter(s, step);
    case Commit => OnceWriter(s, step);
  }

  lemma {:induction false} OnceRun(h: string -> string, s: State, steps: seq<Step>, t: State)
    requires ExactlyOnce(s) && Reaches(h, Lossless, s, steps, t)
    ensures ExactlyOnce(t)
    decreases steps
  {
    if steps != [] {
      OnceStep(h, s, steps[0]);
      OnceRun(h, Apply(h, s, steps[0]), steps[1..], t);
    }
  }

  lemma OnceAtStart(table: seq<Row>)
    requires DistinctIds(table)
    ensures ExactlyOnce(StartUp(table))
  {
    var s := StartUp(table);
    assert Stored(s) == table;
    assert forall i :: 0 <= i < |table| ==> s.feed[i].msgId == table[i].msgId == s.accepted[i];
    forall id ensures HasItem(s.feed, id) <==> HasId(table, id) {
      if HasId(table, id) {
        var i :| 0 <= i < |table| && table[i].msgId == id;
        assert s.feed[i].msgId == id;
      }
      if HasItem(s.feed, id) {
        var i :| 0 <= i < |s.feed| && s.feed[i].msgId == id;
        assert table[i].msgId == id;
      }
    }
    forall id ensures id in s.seen <==> id in s.accepted {
      if id in s.accepted {
        var i :| 0 <= i < |s.accepted| && s.accepted[i] == id;
        assert table[i].msgId == id;
      }
      if id in s.seen {
        var i :| 0 <= i < |table| && table[i].msgId == id;
        assert s.accepted[i] == id;
      }
    }
    forall id | id in s.seen ensures HasItem(s.feed, id) {
      assert HasId(table, id);
    }
  }

  /**
   * Concurrent saves with a writer that does not fail: after any run each accepted id is at exactly
   * one place, and neither a batch nor a direct insert ever loses a row to `INSERT OR IGNORE`.
   */
  lemma ExactlyOnceInMemory(h: string -> string, table: seq<Row>, steps: seq<Step>, t: State)
    requires DistinctIds(table) && Reaches(h, Lossless, StartUp(table), steps, t)
    ensures ExactlyOnce(t)
    ensures Enabled(t, Commit) ==> Apply(h, t, Commit).table == t.table + t.batch
    ensures forall p :: Enabled(t, InsertNow(p)) ==> Apply(h, t, InsertNow(p)).table == t.table + [t.posts[p].row]
  {
    hide Reaches;
    OnceAtStart(table);
    OnceRun(h, StartUp(table), steps, t);
    CommitLands(t);
    forall p | Enabled(t, InsertNow(p))
      ensures Apply(h, t, InsertNow(p)).table == t.table + [t.posts[p].row]
    {
      DirectInsertLands(t, p);
    }
  }

  lemma DistinctPrefix(rows: seq<Row>, n: nat)
    requires DistinctIds(rows) && n <= |rows|
    ensures DistinctIds(rows[..n])
  {}
}
