/**
 * When table, writer batch and queue together follow the order in which links were issued and feed
 * items appended, and what then survives crashes.
 */
module Durability {
  import opened ChainStore
  import opened HashChain
  import opened Options

  /** No writer failure and no full queue. */
  predicate NeverFull(s: State, step: Step) {
    !step.Drop? && (step.Put? ==> |s.queue| < QUEUE_MAX)
  }

  /** A row is queued only when it is the next one that was linked: none was lost or overtaken before it. */
  predicate InLinkOrder(s: State, step: Step) {
    && NeverFull(s, step)
    && (step.Put? && Enabled(s, step) ==>
          |Stored(s)| < |s.issued| && s.issued[|Stored(s)|] == s.posts[step.p].row)
  }

  /** A row is queued only when its item is the next one in the feed: no later save has overtaken it. */
  predicate InFeedOrder(s: State, step: Step) {
    && NeverFull(s, step)
    && (step.Put? && Enabled(s, step) ==>
          |Stored(s)| < |s.feed| && s.feed[|Stored(s)|] == ItemOf(s.posts[step.p].row))
  }

  predicate Orderly(s: State, step: Step) {
    InLinkOrder(s, step) && InFeedOrder(s, step)
  }

  // ---- What a run without a full queue keeps ------------------------------------------------------

  ghost predicate Sound(h: string -> string, s: State) {
    ChainInv(h, s) && ExactlyOnce(s) && forall p :: p in s.posts ==> !s.posts[p].QueueFull?
  }

  lemma SoundStep(h: string -> string, s: State, step: Step)
    requires Sound(h, s) && Enabled(s, step) && NeverFull(s, step)
    ensures Sound(h, Apply(h, s, step))
  {
    hide ChainInv, ExactlyOnce;
    ChainInvStep(h, s, step);
    OnceStep(h, s, step);
  }

  lemma SoundAtStart(h: string -> string, table: seq<Row>)
    requires IntactLog(h, table) && DistinctIds(table)
    ensures Sound(h, StartUp(table))
    ensures Stored(StartUp(table)) == table == StartUp(table).issued && Items(table) == StartUp(table).feed
  {
    hide ExactlyOnce, IntactLog, DistinctIds;
    OnceAtStart(table);
  }

  /** What is stored only grows, and only by the row that a `Put` queues. */
  lemma StoredStep(h: string -> string, s: State, step: Step)
    requires Sound(h, s) && Enabled(s, step) && NeverFull(s, step)
    ensures var t := Apply(h, s, step);
            && Stored(t) == Stored(s) + (if step.Put? then [s.posts[step.p].row] else [])
            && s.issued <= t.issued && s.feed <= t.feed
            && (step.Put? ==> t.issued == s.issued && t.feed == s.feed)
  {
    hide ChainInv, NothingLost;
    var t := Apply(h, s, step);
    match step
    case Put(p) => assert Stored(t) == Stored(s) + [s.posts[p].row];
    case Take => assert Stored(t) == Stored(s);
    case Commit => CommitLands(s); assert Stored(t) == Stored(s);
    case _ =>
  }

  /** The row that a `Put` queues was issued and is in the feed, and was not stored before. */
  lemma PutIsNew(h: string -> string, s: State, p: nat)
    requires Sound(h, s) && Enabled(s, Put(p))
    ensures s.posts[p].row in s.issued && s.posts[p].row !in Stored(s)
    ensures HasItem(s.feed, s.posts[p].row.msgId) && !HasId(Stored(s), s.posts[p].row.msgId)
  {}

  lemma {:induction false} GrowsAlong(h: string -> string, s: State, steps: seq<Step>, t: State)
    requires Sound(h, s) && Reaches(h, NeverFull, s, steps, t)
    ensures Sound(h, t) && Stored(s) <= Stored(t) && s.issued <= t.issued && s.feed <= t.feed
    decreases steps
  {
    if steps != [] {
      hide Sound, Stored, Apply;
      SoundStep(h, s, steps[0]);
      StoredStep(h, s, steps[0]);
      GrowsAlong(h, Apply(h, s, steps[0]), steps[1..], t);
    }
  }

  lemma ReachesWeaker(h: string -> string, a: (State, Step) -> bool, b: (State, Step) -> bool,
                      s: State, steps: seq<Step>, t: State)
    requires Reaches(h, a, s, steps, t) && forall u: State, step: Step :: a(u, step) ==> b(u, step)
    ensures Reaches(h, b, s, steps, t)
    decreases steps
  {
    if steps != [] {
      ReachesWeaker(h, a, b, Apply(h, s, steps[0]), steps[1..], t);
    }
  }

  // ---- Rows in link order ------------------------------------------------------------------------

  lemma LinkOrderStep(h: string -> string, s: State, step: Step)
    requires Sound(h, s) && Enabled(s, step) && InLinkOrder(s, step) && Stored(s) <= s.issued
    ensures Stored(Apply(h, s, step)) <= Apply(h, s, step).issued
  {
    hide Sound, Apply, Stored;
    StoredStep(h, s, step);
  }

  lemma {:induction false} LinkOrderKeeps(h: string -> string, s: State, steps: seq<Step>, t: State)
    requires Sound(h, s) && Stored(s) <= s.issued && Reaches(h, InLinkOrder, s, steps, t)
    ensures Stored(t) <= t.issued
    decreases steps
  {
    if steps != [] {
      SoundStep(h, s, steps[0]);
      LinkOrderStep(h, s, steps[0]);
      hide Sound, Stored, Apply, Enabled, InLinkOrder;
      LinkOrderKeeps(h, Apply(h, s, steps[0]), steps[1..], t);
    }
  }

  /** Where a step that leads to a prefix of the log must have queued the next linked row. */
  lemma LinkOrderBackStep(h: string -> string, s: State, step: Step, rest: seq<Step>, t: State)
    requires Sound(h, s) && Enabled(s, step) && NeverFull(s, step) && Stored(s) <= s.issued
    requires Reaches(h, NeverFull, Apply(h, s, step), rest, t) && Stored(t) <= t.issued
    ensures Sound(h, Apply(h, s, step)) && InLinkOrder(s, step)
    ensures Stored(Apply(h, s, step)) <= Apply(h, s, step).issued
  {
    hide Sound, Apply, Stored, Reaches;
    SoundStep(h, s, step);
    StoredStep(h, s, step);
    GrowsAlong(h, Apply(h, s, step), rest, t);
    if step.Put? {
      PutIsNew(h, s, step.p);
      NextOf(Stored(s), s.issued, s.posts[step.p].row, Stored(t), t.issued);
    }
  }

  lemma {:induction false} LinkOrderBack(h: string -> string, s: State, steps: seq<Step>, t: State)
    requires Sound(h, s) && Stored(s) <= s.issued && Reaches(h, NeverFull, s, steps, t) && Stored(t) <= t.issued
    ensures Reaches(h, InLinkOrder, s, steps, t)
    decreases steps
  {
    if steps != [] {
      hide Sound, Stored, Apply, Enabled, NeverFull, InLinkOrder;
      LinkOrderBackStep(h, s, steps[0], steps[1..], t);
      LinkOrderBack(h, Apply(h, s, steps[0]), steps[1..], t);
    }
  }

  /** A new row of the log that extends a prefix of it to another prefix is the next one. */
  lemma NextOf(stored: seq<Row>, issued: seq<Row>, row: Row, later: seq<Row>, log: seq<Row>)
    requires stored <= issued <= log && row in issued && row !in stored
    requires stored + [row] <= later <= log
    ensures |stored| < |issued| && issued[|stored|] == row && stored + [row] <= issued
  {
    var k :| 0 <= k < |issued| && issued[k] == row;
    assert (stored + [row])[|stored|] == later[|stored|] == log[|stored|] == issued[|stored|];
  }

  /**
   * Without a full queue and without writer failure, table, batch and queue are a prefix of the
   * issued log if and only if every row was queued as the next linked one.
   */
  lemma StoredIsPrefixIffLinkOrder(h: string -> string, table: seq<Row>, steps: seq<Step>, t: State)
    requires IntactLog(h, table) && DistinctIds(table) && Reaches(h, NeverFull, StartUp(table), steps, t)
    ensures Stored(t) <= t.issued <==> Reaches(h, InLinkOrder, StartUp(table), steps, t)
  {
    SoundAtStart(h, table);
    if Stored(t) <= t.issued {
      LinkOrderBack(h, StartUp(table), steps, t);
    } else if Reaches(h, InLinkOrder, StartUp(table), steps, t) {
      LinkOrderKeeps(h, StartUp(table), steps, t);
    }
  }

  /**
   * When an untouched chain verifies: what a run has stored does if and only if every row was queued
   * as the next linked one, or else a break of the hash function is at hand.
   */
  lemma StoredVerifiesIffLinkOrder(h: string -> string, table: seq<Row>, steps: seq<Step>, t: State)
    requires Sha256Shape(h) && IntactLog(h, table) && DistinctIds(table)
    requires Reaches(h, NeverFull, StartUp(table), steps, t)
    ensures DrawnFrom(Stored(t), t.issued)
    ensures Reaches(h, InLinkOrder, StartUp(table), steps, t) ==> Verifies(h, Stored(t)) && Verifies(h, t.table)
    ensures Verifies(h, Stored(t)) ==> match SelectionBreak(t.issued, Stored(t))
                                       case Some(w) => IsBreak(h, w)
                                       case None => Reaches(h, InLinkOrder, StartUp(table), steps, t)
  {
    hide Reaches, SelectionBreak, Verifies, Sound, IntactLog, DistinctIds, Stored, DrawnFrom;
    SoundAtStart(h, table);
    GrowsAlong(h, StartUp(table), steps, t);
    StoredIsPrefixIffLinkOrder(h, table, steps, t);
    StoredIsDrawn(h, t);
    TableIsPart(t);
    SelectionVerifiesIffPrefix(h, t.issued, Stored(t));
    if Stored(t) <= t.issued {
      PrefixVerifies(h, t.issued, Stored(t));
      PrefixVerifies(h, Stored(t), t.table);
    }
  }

  lemma StoredIsDrawn(h: string -> string, s: State)
    requires Sound(h, s)
    ensures DrawnFrom(Stored(s), s.issued) && Verifies(h, s.issued)
  {}

  lemma PrefixVerifies(h: string -> string, rows: seq<Row>, part: seq<Row>)
    requires Verifies(h, rows) && part <= rows
    ensures Verifies(h, part)
  {
    VerifiesPrefix(h, rows, |part|);
    assert rows[..|part|] == part;
  }

  // ---- Items in feed order ------------------------------------------------------------------------

  lemma ItemsSnoc(rows: seq<Row>, row: Row)
    ensures Items(rows + [row]) == Items(rows) + [ItemOf(row)]
  {}

  lemma FeedOrderStep(h: string -> string, s: State, step: Step)
    requires Sound(h, s) && Enabled(s, step) && InFeedOrder(s, step) && Items(Stored(s)) <= s.feed
    ensures Items(Stored(Apply(h, s, step))) <= Apply(h, s, step).feed
  {
    hide Sound, Apply, Stored, Items;
    StoredStep(h, s, step);
    ItemsLength(Stored(s));
    if step.Put? {
      ItemsSnoc(Stored(s), s.posts[step.p].row);
    } else {
      assert Stored(s) + [] == Stored(s);
    }
  }

  lemma {:induction false} FeedOrderKeeps(h: string -> string, s: State, steps: seq<Step>, t: State)
    requires Sound(h, s) && Items(Stored(s)) <= s.feed && Reaches(h, InFeedOrder, s, steps, t)
    ensures Items(Stored(t)) <= t.feed
    decreases steps
  {
    if steps != [] {
      SoundStep(h, s, steps[0]);
      FeedOrderStep(h, s, steps[0]);
      hide Sound, Stored, Apply, Enabled, InFeedOrder, Items;
      FeedOrderKeeps(h, Apply(h, s, steps[0]), steps[1..], t);
    }
  }

  lemma ItemsLength(rows: seq<Row>)
    ensures |Items(rows)| == |rows|
  {}

  lemma ItemsMonotone(a: seq<Row>, b: seq<Row>)
    requires a <= b
    ensures Items(a) <= Items(b)
  {}

  lemma FeedOrderBackStep(h: string -> string, s: State, step: Step, rest: seq<Step>, t: State)
    requires Sound(h, s) && Enabled(s, step) && NeverFull(s, step) && Items(Stored(s)) <= s.feed
    requires Reaches(h, NeverFull, Apply(h, s, step), rest, t) && Items(Stored(t)) <= t.feed
    ensures Sound(h, Apply(h, s, step)) && InFeedOrder(s, step)
    ensures Items(Stored(Apply(h, s, step))) <= Apply(h, s, step).feed
  {
    hide Sound, Apply, Stored, Reaches, Items, ItemOf, HasItem, HasId;
    var u := Apply(h, s, step);
    SoundStep(h, s, step);
    StoredStep(h, s, step);
    GrowsAlong(h, u, rest, t);
    if step.Put? {
      PutIsNew(h, s, step.p);
      ItemsMonotone(Stored(u), Stored(t));
      NextItem(Stored(s), s.feed, s.posts[step.p].row, t.feed);
    } else {
      assert Stored(s) + [] == Stored(s);
    }
  }

  lemma {:induction false} FeedOrderBack(h: string -> string, s: State, steps: seq<Step>, t: State)
    requires Sound(h, s) && Items(Stored(s)) <= s.feed
    requires Reaches(h, NeverFull, s, steps, t) && Items(Stored(t)) <= t.feed
    ensures Reaches(h, InFeedOrder, s, steps, t)
    decreases steps
  {
    if steps != [] {
      hide Sound, Stored, Apply, Enabled, NeverFull, InFeedOrder, Items;
      FeedOrderBackStep(h, s, steps[0], steps[1..], t);
      FeedOrderBack(h, Apply(h, s, steps[0]), steps[1..], t);
    }
  }

  lemma NextItem(stored: seq<Row>, feed: seq<FeedItem>, row: Row, later: seq<FeedItem>)
    requires Items(stored) <= feed <= later && HasItem(feed, row.msgId) && !HasId(stored, row.msgId)
    requires Items(stored + [row]) <= later
    ensures |stored| < |feed| && feed[|stored|] == ItemOf(row) && Items(stored + [row]) <= feed
  {
    ItemsSnoc(stored, row);
    FirstNewItem(stored, feed, row.msgId);
    assert Items(stored + [row])[|stored|] == later[|stored|] == feed[|stored|];
  }

  /** An id in the feed and in no stored row stands behind the stored items. */
  lemma FirstNewItem(stored: seq<Row>, feed: seq<FeedItem>, id: string)
    requires Items(stored) <= feed && HasItem(feed, id) && !HasId(stored, id)
    ensures |stored| < |feed|
  {
    var k :| 0 <= k < |feed| && feed[k].msgId == id;
    forall j | 0 <= j < |stored| ensures feed[j].msgId == stored[j].msgId {
      assert feed[j] == Items(stored)[j];
    }
  }

  /** Stored rows show in the feed in their order if and only if every row was queued as its next item. */
  lemma FeedShowsStoredIffFeedOrder(h: string -> string, table: seq<Row>, steps: seq<Step>, t: State)
    requires IntactLog(h, table) && DistinctIds(table) && Reaches(h, NeverFull, StartUp(table), steps, t)
    ensures Items(Stored(t)) <= t.feed <==> Reaches(h, InFeedOrder, StartUp(table), steps, t)
  {
    SoundAtStart(h, table);
    if Items(Stored(t)) <= t.feed {
      FeedOrderBack(h, StartUp(table), steps, t);
    } else if Reaches(h, InFeedOrder, StartUp(table), steps, t) {
      FeedOrderKeeps(h, StartUp(table), steps, t);
    }
  }

  // ---- Durability of a prefix ---------------------------------------------------------------------

  /** Item i of the feed has id, username, plaintext and timestamp of row i. */
  predicate ShowsRows(feed: seq<FeedItem>, rows: seq<Row>) {
    && |rows| <= |feed|
    && forall i :: 0 <= i < |rows| ==>
         && feed[i].msgId == rows[i].msgId && feed[i].username == rows[i].username
         && feed[i].plaintext == rows[i].plaintext && feed[i].timestamp == rows[i].timestamp
  }

  lemma ItemsShowRows(feed: seq<FeedItem>, rows: seq<Row>)
    requires Items(rows) <= feed
    ensures ShowsRows(feed, rows)
  {
    assert forall i :: 0 <= i < |rows| ==> Items(rows)[i] == feed[i];
  }

  /**
   * Table, batch and queue are an intact chain, the feed shows it in this order and, while no save
   * is between feed and queue, nothing else; so a crash costs a suffix of the feed only.
   */
  ghost predicate Durable(h: string -> string, s: State) {
    && IntactLog(h, s.table + s.batch + s.queue) && IntactLog(h, s.table) && DistinctIds(s.table)
    && Items(s.table + s.batch + s.queue) <= s.feed && StartUp(s.table).feed <= s.feed
    && ((forall p :: p in s.posts ==> !s.posts[p].InFeed?) ==> s.feed == Items(s.table + s.batch + s.queue))
    && ShowsRows(s.feed, s.table + s.batch + s.queue)
  }

  lemma IntactPart(h: string -> string, log: seq<Row>, rows: seq<Row>)
    requires IntactLog(h, log) && rows <= log
    ensures IntactLog(h, rows)
  {
    PrefixVerifies(h, log, rows);
    forall i | 0 <= i < |rows| ensures rows[i].prevHash == PrevOf(rows, i) {
      assert PrevOf(rows, i) == PrevOf(log, i);
    }
  }

  /** An item behind the stored ones belongs to a save that is between feed and queue. */
  lemma ExtraItem(s: State, k: nat)
    requires ExactlyOnce(s) && Items(Stored(s)) <= s.feed && |Stored(s)| <= k < |s.feed|
    ensures HeldBy(s.posts, s.feed[k].msgId, true)
  {
    var stored, id := Stored(s), s.feed[k].msgId;
    assert HasItem(s.feed, id);
    forall j | 0 <= j < |stored| ensures stored[j].msgId != id {
      assert Items(stored)[j] == s.feed[j] && Items(stored)[j].msgId == stored[j].msgId;
    }
  }

  lemma FeedIsStored(h: string -> string, s: State)
    requires Sound(h, s) && Items(Stored(s)) <= s.feed && forall p :: p in s.posts ==> !s.posts[p].InFeed?
    ensures s.feed == Items(Stored(s))
  {
    var stored := Stored(s);
    if |stored| < |s.feed| {
      ExtraItem(s, |stored|);
    }
  }

  lemma OrderlyIsDurable(h: string -> string, s: State)
    requires Sound(h, s) && Stored(s) <= s.issued && Items(Stored(s)) <= s.feed
    ensures Durable(h, s)
  {
    hide ExactlyOnce, AtMostOnce, IntactLog, RowsIssued, DistinctIds, Items, ShowsRows;
    SoundParts(h, s);
    TableIsPart(s);
    IntactPart(h, s.issued, Stored(s));
    IntactPart(h, s.issued, s.table);
    DistinctPrefix(Stored(s), |s.table|);
    ItemsMonotone(s.table, Stored(s));
    ItemsShowRows(s.feed, Stored(s));
    if forall p :: p in s.posts ==> !s.posts[p].InFeed? {
      FeedIsStored(h, s);
    }
  }

  lemma SoundParts(h: string -> string, s: State)
    requires Sound(h, s)
    ensures IntactLog(h, s.issued) && DistinctIds(Stored(s))
  {}

  lemma TableIsPart(s: State)
    ensures s.table <= Stored(s) && Stored(s)[..|s.table|] == s.table
  {}

  /** One life of a process in which rows are queued in link and feed order, however the posts overlap. */
  lemma DurableLife(h: string -> string, table: seq<Row>, steps: seq<Step>, t: State)
    requires IntactLog(h, table) && DistinctIds(table) && Reaches(h, Orderly, StartUp(table), steps, t)
    ensures Durable(h, t) && table <= t.table
  {
    var s := StartUp(table);
    SoundAtStart(h, table);
    ReachesWeaker(h, Orderly, NeverFull, s, steps, t);
    ReachesWeaker(h, Orderly, InLinkOrder, s, steps, t);
    ReachesWeaker(h, Orderly, InFeedOrder, s, steps, t);
    GrowsAlong(h, s, steps, t);
    LinkOrderKeeps(h, s, steps, t);
    FeedOrderKeeps(h, s, steps, t);
    OrderlyIsDurable(h, t);
    TableGrows(h, Orderly, s, steps, t);
  }

  /** A history of process lives, each ended by a crash at any moment and followed by a start-up. */
  predicate Lives(h: string -> string, table: seq<Row>, lives: seq<(seq<Step>, State)>)
    decreases lives
  {
    if lives == [] then true
    else
      && Reaches(h, Orderly, StartUp(table), lives[0].0, lives[0].1)
      && Lives(h, lives[0].1.table, lives[1..])
  }

  /**
   * Across any number of crashes: every life keeps table and feed in step, every table is an intact
   * chain, and the next one extends it.
   */
  lemma {:induction false} PrefixDurability(h: string -> string, table: seq<Row>,
                                            lives: seq<(seq<Step>, State)>, k: nat)
    requires IntactLog(h, table) && DistinctIds(table) && Lives(h, table, lives) && k < |lives|
    ensures Durable(h, lives[k].1) && table <= lives[k].1.table
    decreases lives
  {
    hide Durable, Reaches, IntactLog, DistinctIds;
    if k == 0 {
      DurableLife(h, table, lives[0].0, lives[0].1);
    } else {
      var next := NextTable(h, table, lives);
      PrefixDurability(h, next, lives[1..], k - 1);
      assert lives[1..][k - 1] == lives[k];
      PrefixOfPrefix(table, next, lives[k].1.table);
    }
  }

  /** The table that the first life leaves to the next one. */
  lemma NextTable(h: string -> string, table: seq<Row>, lives: seq<(seq<Step>, State)>) returns (next: seq<Row>)
    requires IntactLog(h, table) && DistinctIds(table) && Lives(h, table, lives) && lives != []
    ensures next == lives[0].1.table && IntactLog(h, next) && DistinctIds(next) && table <= next
    ensures Lives(h, next, lives[1..])
  {
    next := lives[0].1.table;
    DurableLife(h, table, lives[0].0, lives[0].1);
  }

  lemma PrefixOfPrefix(a: seq<Row>, b: seq<Row>, c: seq<Row>)
    requires a <= b <= c
    ensures a <= c
  {}

  lemma {:induction false} TableGrows(h: string -> string, allowed: (State, Step) -> bool,
                                      s: State, steps: seq<Step>, t: State)
    requires Reaches(h, allowed, s, steps, t)
    ensures s.table <= t.table
    decreases steps
  {
    if steps != [] {
      TableStep(h, s, steps[0]);
      TableGrows(h, allowed, Apply(h, s, steps[0]), steps[1..], t);
    }
  }

  lemma TableStep(h: string -> string, s: State, step: Step)
    requires Enabled(s, step)
    ensures s.table <= Apply(h, s, step).table
  {
    if step.Commit? {
      InsertAllGrows(s.table, s.batch);
      assert s.batch[..|s.batch|] == s.batch;
    } else if step.Drop? {
      InsertAllGrows(s.table, s.batch[..step.written]);
    }
  }

  lemma {:induction false} InsertAllGrows(table: seq<Row>, rows: seq<Row>)
    ensures table <= InsertAll(table, rows)
    decreases rows
  {
    if rows != [] {
      InsertAllGrows(InsertOrIgnore(table, rows[0]), rows[1..]);
    }
  }

  // ---- Guards that callers can keep ---------------------------------------------------------------

  /** The post has drawn its link and is not through its save yet. */
  predicate PastLink(post: Post) {
    !post.Checked?
  }

  /**
   * Posts may overlap up to their link, but one at a time goes from link to queue, and none draws a
   * link for an id that has been saved since its early check.
   */
  predicate Exclusive(s: State, step: Step) {
    && NeverFull(s, step)
    && (step.Link? && step.p in s.posts && s.posts[step.p].Checked? ==>
          s.posts[step.p].msgId !in s.seen && forall p :: p in s.posts ==> !PastLink(s.posts[p]))
  }

  /** At most one post is past its link, and its row is all that is issued and not stored. */
  ghost predicate OneInside(s: State) {
    && (forall p, q :: p in s.posts && q in s.posts && PastLink(s.posts[p]) && PastLink(s.posts[q]) ==> p == q)
    && ((forall p :: p in s.posts ==> !PastLink(s.posts[p])) ==>
          s.issued == Stored(s) && s.feed == Items(Stored(s)))
    && (forall p :: p in s.posts && PastLink(s.posts[p]) ==> Inside(s, s.posts[p]))
  }

  predicate Inside(s: State, post: Post)
    requires PastLink(post)
  {
    && s.issued == Stored(s) + [post.row] && !post.QueueFull?
    && s.feed == Items(Stored(s)) + (if post.InFeed? then [ItemOf(post.row)] else [])
    && (post.Linked? ==> post.row.msgId !in s.seen)
  }

  lemma ExclusivePut(s: State, p: nat)
    requires OneInside(s) && Enabled(s, Put(p)) && |s.queue| < QUEUE_MAX
    ensures Orderly(s, Put(p)) && OneInside(PutQueue(s, p))
  {
    var row := s.posts[p].row;
    assert Inside(s, s.posts[p]);
    ItemsSnoc(Stored(s), row);
    assert Stored(PutQueue(s, p)) == Stored(s) + [row];
  }

  lemma ExclusiveWriter(h: string -> string, s: State, step: Step)
    requires Sound(h, s) && OneInside(s) && Enabled(s, step) && (step.Take? || step.Commit?)
    ensures OneInside(Apply(h, s, step))
  {
    hide Sound, Stored, Items;
    StoredStep(h, s, step);
    var t := Apply(h, s, step);
    assert Stored(t) == Stored(s) + [] == Stored(s);
    assert t.posts == s.posts && t.issued == s.issued && t.feed == s.feed && t.seen == s.seen;
    forall p | p in t.posts && PastLink(t.posts[p]) ensures Inside(t, t.posts[p]) {
      assert Inside(s, s.posts[p]);
    }
  }

  lemma ExclusiveClaim(s: State, p: nat)
    requires OneInside(s) && Enabled(s, Claim(p))
    ensures OneInside(ClaimId(s, p))
  {
    hide Items;
    var row, t := s.posts[p].row, ClaimId(s, p);
    assert Inside(s, s.posts[p]);
    assert Stored(t) == Stored(s) && t.posts == s.posts[p := Claimed(row)];
    assert PastLink(t.posts[p]) && Inside(t, t.posts[p]);
    assert forall q :: q in t.posts && PastLink(t.posts[q]) ==> PastLink(s.posts[q]);
  }

  lemma ExclusiveAppend(s: State, p: nat)
    requires OneInside(s) && Enabled(s, Append(p))
    ensures OneInside(AppendFeed(s, p))
  {
    hide Items;
    var row, t := s.posts[p].row, AppendFeed(s, p);
    assert Inside(s, s.posts[p]);
    assert Stored(t) == Stored(s) && t.posts == s.posts[p := InFeed(row)];
    assert t.feed == Items(Stored(s)) + [] + [ItemOf(row)] == Items(Stored(s)) + [ItemOf(row)];
    assert PastLink(t.posts[p]) && Inside(t, t.posts[p]);
    assert forall q :: q in t.posts && PastLink(t.posts[q]) ==> PastLink(s.posts[q]);
  }

  lemma ExclusiveCheck(s: State, p: nat, id: string)
    requires OneInside(s) && Enabled(s, Check(p, id))
    ensures OneInside(CheckId(s, p, id))
  {
    hide Items;
    var t := CheckId(s, p, id);
    assert Stored(t) == Stored(s);
    forall q | q in t.posts && PastLink(t.posts[q]) ensures Inside(t, t.posts[q]) {
      assert Inside(s, s.posts[q]);
    }
    if forall q :: q in t.posts ==> !PastLink(t.posts[q]) {
      forall q | q in s.posts ensures !PastLink(s.posts[q]) {
        assert q in t.posts;
      }
    }
  }

  lemma ExclusiveLink(h: string -> string, s: State, step: Step)
    requires OneInside(s) && Enabled(s, step) && Exclusive(s, step) && step.Link?
    ensures OneInside(LinkPost(h, s, step))
  {
    hide Items;
    var t := LinkPost(h, s, step);
    var row := t.posts[step.p].row;
    assert Stored(t) == Stored(s) && t.posts == s.posts[step.p := Linked(row)];
    assert Items(Stored(s)) + [] == Items(Stored(s));
    assert Inside(t, Linked(row));
  }

  lemma NoInsert(h: string -> string, s: State, p: nat)
    requires Sound(h, s)
    ensures !Enabled(s, InsertNow(p))
  {}

  lemma ExclusiveStep(h: string -> string, s: State, step: Step)
    requires Sound(h, s) && OneInside(s) && Enabled(s, step) && Exclusive(s, step)
    ensures Orderly(s, step) && OneInside(Apply(h, s, step))
  {
    hide OneInside, Stored, Sound, Items;
    match step
    case Put(p) => ExclusivePut(s, p);
    case Take => ExclusiveWriter(h, s, step);
    case Commit => ExclusiveWriter(h, s, step);
    case Claim(p) => ExclusiveClaim(s, p);
    case Append(p) => ExclusiveAppend(s, p);
    case Check(p, id) => ExclusiveCheck(s, p, id);
    case Link(_, _, _, _, _, _, _) => ExclusiveLink(h, s, step);
    case InsertNow(p) => NoInsert(h, s, p);
  }

  /** One post at a time between link and queue is enough for link and feed order. */
  lemma {:induction false} ExclusiveIsOrderly(h: string -> string, s: State, steps: seq<Step>, t: State)
    requires Sound(h, s) && OneInside(s) && Reaches(h, Exclusive, s, steps, t)
    ensures Reaches(h, Orderly, s, steps, t)
    decreases steps
  {
    if steps != [] {
      hide Sound, OneInside, Orderly, Apply;
      SoundStep(h, s, steps[0]);
      ExclusiveStep(h, s, steps[0]);
      ExclusiveIsOrderly(h, Apply(h, s, steps[0]), steps[1..], t);
    }
  }

  /** With posts one at a time, what the early check has found stays true until the link. */
  ghost predicate Alone(s: State) {
    && (forall p, q :: p in s.posts && q in s.posts ==> p == q)
    && (forall p :: p in s.posts && s.posts[p].Checked? ==> s.posts[p].msgId !in s.seen)
  }

  lemma SoloStep(h: string -> string, s: State, step: Step)
    requires Alone(s) && Enabled(s, step) && Solo(s, step)
    ensures Exclusive(s, step) && Alone(Apply(h, s, step))
  {}

  lemma {:induction false} SoloIsExclusive(h: string -> string, s: State, steps: seq<Step>, t: State)
    requires Alone(s) && Reaches(h, Solo, s, steps, t)
    ensures Reaches(h, Exclusive, s, steps, t)
    decreases steps
  {
    if steps != [] {
      hide Alone, Apply, Exclusive;
      SoloStep(h, s, steps[0]);
      SoloIsExclusive(h, Apply(h, s, steps[0]), steps[1..], t);
    }
  }

  lemma NobodyAtStart(table: seq<Row>)
    ensures OneInside(StartUp(table)) && Alone(StartUp(table))
  {
    assert Stored(StartUp(table)) == table;
  }

  /** In particular the guarantees hold for exclusive saves, and for posts that do not overlap at all. */
  lemma ExclusiveLife(h: string -> string, table: seq<Row>, steps: seq<Step>, t: State)
    requires IntactLog(h, table) && DistinctIds(table)
    requires Reaches(h, Exclusive, StartUp(table), steps, t) || Reaches(h, Solo, StartUp(table), steps, t)
    ensures Reaches(h, Orderly, StartUp(table), steps, t) && Durable(h, t) && table <= t.table
  {
    hide Reaches, Durable, IntactLog, DistinctIds, Sound, OneInside, Alone, StartUp;
    SoundAtStart(h, table);
    NobodyAtStart(table);
    if Reaches(h, Solo, StartUp(table), steps, t) {
      SoloIsExclusive(h, StartUp(table), steps, t);
    }
    ExclusiveIsOrderly(h, StartUp(table), steps, t);
    DurableLife(h, table, steps, t);
  }
}
