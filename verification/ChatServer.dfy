/**
 * db.py and app.py as objects: the module globals are fields, the functions are methods.
 * Each method is one call without overlap; what overlapping calls do is ChainStore's subject,
 * and the methods below are proved to be particular runs of its steps.
 */
module ChatServer {
  import opened HashChain
  import opened ChainStore
  import opened Text

  class MessageDb {
    var seen: set<string>
    var feed: seq<FeedItem>
    var queue: seq<Row>
    var table: seq<Row>

    /** The ids of feed, queue and table agree, and no id is stored twice. */
    ghost predicate Valid()
      reads this
    {
      && DistinctIds(table + queue)
      && (forall id :: HasId(table + queue, id) <==> id in seen)
      && (forall id :: HasItem(feed, id) <==> id in seen)
    }

    /** `init_db` over the table found on disk. */
    constructor InitDb(rows: seq<Row>)
      requires DistinctIds(rows)
      ensures Valid() && table == rows && queue == [] && feed == Items(rows) && seen == Ids(rows)
      ensures |feed| == |rows| && forall i :: 0 <= i < |rows| ==>
                feed[i] == FeedItem(rows[i].msgId, rows[i].username, rows[i].plaintext, rows[i].timestamp)
    {
      seen := Ids(rows);
      feed := Items(rows);
      queue := [];
      table := rows;
      new;
      assert rows + [] == rows;
      OnceAtStart(rows);
      assert Stored(StartUp(rows)) == rows;
    }

    method GetLastHash() returns (hash: string)
      ensures hash == Tail(table)
    {
      if table == [] {
        hash := Zeros(64);
      } else {
        hash := table[|table| - 1].recordHash;
      }
    }

    method MessageExists(id: string) returns (known: bool)
      requires Valid()
      ensures known <==> HasId(table + queue, id)
      ensures known <==> HasItem(feed, id)
    {
      known := id in seen;
    }

    /** Returns False, and changes nothing, for an id already accepted. */
    method SaveMessage(row: Row) returns (accepted: bool)
      requires Valid()
      modifies this
      ensures Valid()
      ensures accepted <==> !old(HasId(table + queue, row.msgId))
      ensures seen == old(seen) + {row.msgId}
      ensures feed == if accepted then old(feed) + [FeedItem(row.msgId, row.username, row.plaintext, row.timestamp)]
                      else old(feed)
      ensures queue == if accepted && |old(queue)| < 200000 then old(queue) + [row] else old(queue)
      ensures table == if accepted && |old(queue)| >= 200000 then old(table) + [row] else old(table)
    {
      if row.msgId in seen {
        return false;
      }
      FeedAppend(feed, ItemOf(row));
      StoredAppend(table + queue, row);
      StoredInsert(table, queue, row);
      HasIdPart(table, queue, row.msgId);
      assert table + (queue + [row]) == (table + queue) + [row];
      seen := seen + {row.msgId};
      feed := feed + [ItemOf(row)];
      if |queue| < QUEUE_MAX {
        queue := queue + [row];
      } else {
        table := InsertOrIgnore(table, row);
      }
      accepted := true;
    }

    /** One round of `_background_writer` that finds the queue non-empty. */
    method WriterCycle()
      requires Valid() && queue != []
      modifies this
      ensures Valid()
      ensures var n := if |old(queue)| < 200 then |old(queue)| else 200;
              table == old(table) + old(queue)[..n] && queue == old(queue)[n..]
      ensures feed == old(feed) && seen == old(seen)
    {
      ghost var all := table + queue;
      var batch := [queue[0]];
      queue := queue[1..];
      while |batch| < BATCH_MAX && queue != []
        invariant 1 <= |batch| <= BATCH_MAX
        invariant |batch| <= |old(queue)| && batch == old(queue)[..|batch|] && queue == old(queue)[|batch|..]
        invariant table == old(table) && feed == old(feed) && seen == old(seen)
        decreases |queue|
      {
        batch := batch + [queue[0]];
        queue := queue[1..];
      }
      assert all == table + batch + queue;
      DistinctPrefix(all, |table + batch|);
      assert all[..|table + batch|] == table + batch;
      InsertAllDistinct(table, batch);
      table := InsertAll(table, batch);
      assert table + queue == all;
    }

    /** The second definition of `reset_db`, the one in force: drains the queue, then clears the rest. */
    method ResetDb()
      modifies this
      ensures Valid() && seen == {} && feed == [] && queue == [] && table == []
    {
      while queue != []
        decreases |queue|
      {
        queue := queue[1..];
      }
      seen := {};
      feed := [];
      table := [];
    }
  }

  datatype Response = MissingName | MissingText | Duplicate | Ok

  /** The steps of one post that meets no other post: from the early check to the end of its save. */
  function PostAlone(h: string -> string, s: State, id: string, link: Step): State
    requires s.posts == map[] && link.Link? && link.p == 0
  {
    if id in s.seen then s
    else
      var s1 := LinkPost(h, CheckId(s, 0, id), link);
      var s2 := AppendFeed(ClaimId(s1, 0), 0);
      var s3 := PutQueue(s2, 0);
      if 0 in s3.posts then InsertDirect(s3, 0) else s3
  }

  /** app.py: the tail of the chain and the database behind it. */
  class ChatApp {
    const h: string -> string
    const db: MessageDb
    var lastHash: string
    ghost var issued: seq<Row>
    ghost var accepted: seq<string>

    ghost predicate Valid()
      reads this, db
    {
      db.Valid()
    }

    ghost function View(): State
      reads this, db
    {
      State(lastHash, issued, db.seen, accepted, db.feed, db.queue, [], db.table, map[])
    }

    /** Stored and queued rows form one intact chain, whose tail is the next link. */
    ghost predicate InChain()
      reads this, db
    {
      IntactLog(h, db.table + db.queue) && lastHash == Tail(db.table + db.queue)
    }

    constructor StartUp(h: string -> string, db: MessageDb)
      requires db.Valid() && db.queue == [] && db.feed == Items(db.table) && db.seen == Ids(db.table)
      ensures this.h == h && this.db == db && Valid()
      ensures View() == ChainStore.StartUp(db.table)
      ensures IntactLog(h, db.table) ==> InChain()
    {
      this.h := h;
      this.db := db;
      var hash := db.GetLastHash();
      lastHash := hash;
      issued := db.table;
      accepted := IdList(db.table);
      new;
      assert db.table + db.queue == db.table;
    }

    method GetNextHashes(name: string, ciphertext: string, signature: string, timestamp: int)
      returns (prev: string, rec: string)
      modifies this`lastHash
      ensures prev == old(lastHash) && lastHash == rec
      ensures rec == ComputeRecordHash(h, Hashed(prev, name, ciphertext, signature, timestamp))
    {
      prev := lastHash;
      rec := ComputeRecordHash(h, Hashed(prev, name, ciphertext, signature, timestamp));
      lastHash := rec;
    }

    /**
     * `post_message` after input decoding.  Ciphertext, signature and key come from the
     * cryptography libraries, `id` from the client or a fresh UUID.
     */
    method PostMessage(id: string, name: string, text: string, timestamp: int,
                       signature: string, ciphertext: string, pubkey: string) returns (r: Response)
      requires Valid()
      modifies this, db
      ensures Valid()
      ensures r.MissingName? <==> name == ""
      ensures r.MissingText? <==> name != "" && text == ""
      ensures r.Duplicate? <==> name != "" && text != "" && old(HasId(db.table + db.queue, id))
      ensures !r.Ok? ==> View() == old(View())
      ensures r.Ok? ==> View() == PostAlone(h, old(View()), id, Link(0, name, text, ciphertext, signature, pubkey, timestamp))
      ensures r.Ok? ==> db.feed == old(db.feed) + [FeedItem(id, name, text, timestamp)]
      ensures r.Ok? ==> var row := Row(id, name, text, ciphertext, signature, pubkey, timestamp, old(lastHash), lastHash);
                 if |old(db.queue)| < 200000 then db.queue == old(db.queue) + [row] && db.table == old(db.table)
                 else db.queue == old(db.queue) && db.table == old(db.table) + [row]
      ensures r.Ok? ==>
                lastHash == h(old(lastHash) + "|" + name + "|" + ciphertext + "|" + signature + "|" + IntText(timestamp))
      ensures old(InChain()) && |old(db.queue)| < QUEUE_MAX ==> InChain()
    {
      if name == "" {
        return MissingName;
      }
      if text == "" {
        return MissingText;
      }
      var known := db.MessageExists(id);
      if known {
        return Duplicate;
      }
      Store(id, name, text, timestamp, signature, ciphertext, pubkey);
      r := Ok;
    }

    /** The part of `post_message` after the early check: link, then save. */
    method Store(id: string, name: string, text: string, timestamp: int,
                 signature: string, ciphertext: string, pubkey: string)
      requires Valid() && id !in db.seen
      modifies this, db
      ensures Valid()
      ensures View() == PostAlone(h, old(View()), id, Link(0, name, text, ciphertext, signature, pubkey, timestamp))
      ensures db.feed == old(db.feed) + [FeedItem(id, name, text, timestamp)]
      ensures var row := Row(id, name, text, ciphertext, signature, pubkey, timestamp, old(lastHash), lastHash);
                 if |old(db.queue)| < 200000 then db.queue == old(db.queue) + [row] && db.table == old(db.table)
                 else db.queue == old(db.queue) && db.table == old(db.table) + [row]
      ensures lastHash == ComputeRecordHash(h, Hashed(old(lastHash), name, ciphertext, signature, timestamp))
      ensures old(InChain()) && |old(db.queue)| < QUEUE_MAX ==> InChain()
    {
      ghost var link := Link(0, name, text, ciphertext, signature, pubkey, timestamp);
      var prev, rec := GetNextHashes(name, ciphertext, signature, timestamp);
      var row := Row(id, name, text, ciphertext, signature, pubkey, timestamp, prev, rec);
      var inserted := db.SaveMessage(row);
      issued := issued + [row];
      accepted := accepted + [id];
      AlonePost(h, old(View()), row, link);
      HasIdPart(old(db.table), old(db.queue), id);
      ChainGrows(h, old(db.table), old(db.queue), old(lastHash), row);
    }

    method ResetState()
      modifies this, db
      ensures Valid() && View() == ChainStore.StartUp([])
      ensures InChain()
    {
      db.ResetDb();
      lastHash := Zeros(64);
      issued := [];
      accepted := [];
      assert db.table + db.queue == [];
    }
  }

  lemma ChainGrows(h: string -> string, table: seq<Row>, queue: seq<Row>, lastHash: string, row: Row)
    requires row.prevHash == lastHash && VerifyRecord(h, row, row.prevHash)
    ensures IntactLog(h, table + queue) && lastHash == Tail(table + queue) ==>
              IntactLog(h, table + (queue + [row])) && row.recordHash == Tail(table + (queue + [row]))
  {
    assert table + (queue + [row]) == table + queue + [row];
    if IntactLog(h, table + queue) && lastHash == Tail(table + queue) {
      IntactLogAppend(h, table + queue, row);
    }
  }

  lemma AlonePost(h: string -> string, s: State, row: Row, link: Step)
    requires s.posts == map[] && link.Link? && link.p == 0
    requires row == LinkedRow(h, s.lastHash, row.msgId, link) && row.msgId !in s.seen
    ensures var t := PostAlone(h, s, row.msgId, link);
            t == s.(lastHash := row.recordHash, issued := s.issued + [row], seen := s.seen + {row.msgId},
                    accepted := s.accepted + [row.msgId], feed := s.feed + [ItemOf(row)],
                    queue := if |s.queue| < QUEUE_MAX then s.queue + [row] else s.queue,
                    table := if |s.queue| < QUEUE_MAX then s.table else InsertOrIgnore(s.table, row))
  {
    var s1 := LinkPost(h, CheckId(s, 0, row.msgId), link);
    assert s1.posts == map[0 := Linked(row)];
    var s2 := AppendFeed(ClaimId(s1, 0), 0);
    assert s2.posts == map[0 := InFeed(row)];
    var s3 := PutQueue(s2, 0);
    if |s.queue| < QUEUE_MAX {
      assert s3.posts == map[];
    } else {
      assert s3.posts == map[0 := QueueFull(row)];
      assert InsertDirect(s3, 0).posts == map[];
    }
  }

  // ---- The calls are runs of the step model --------------------------------------------

  function PostAloneSteps(s: State, id: string, link: Step): seq<Step> {
    if id in s.seen then [Check(0, id)]
    else if |s.queue| < QUEUE_MAX then [Check(0, id), link, Claim(0), Append(0), Put(0)]
    else [Check(0, id), link, Claim(0), Append(0), Put(0), InsertNow(0)]
  }

  /** A post that meets no other one is a run of its steps; without a full queue, one that `Solo` allows. */
  lemma PostAloneIsRun(h: string -> string, s: State, id: string, link: Step)
    requires s.posts == map[] && link.Link? && link.p == 0
    ensures Reaches(h, Lossless, s, PostAloneSteps(s, id, link), PostAlone(h, s, id, link))
    ensures |s.queue| < QUEUE_MAX ==> Reaches(h, Solo, s, PostAloneSteps(s, id, link), PostAlone(h, s, id, link))
  {
    ReachesSnoc(h, Solo, s, [], s, Check(0, id));
    assert [] + [Check(0, id)] == [Check(0, id)];
    if id !in s.seen {
      var t := PostAloneToFeed(h, s, id, link);
      var steps := [Check(0, id), link, Claim(0), Append(0)];
      if |s.queue| < QUEUE_MAX {
        ReachesSnoc(h, Solo, s, steps, t, Put(0));
        assert steps + [Put(0)] == PostAloneSteps(s, id, link);
      } else {
        SoloIsLossless(h, s, steps, t);
        ReachesSnoc(h, Lossless, s, steps, t, Put(0));
        ReachesSnoc(h, Lossless, s, steps + [Put(0)], PutQueue(t, 0), InsertNow(0));
        assert steps + [Put(0)] + [InsertNow(0)] == PostAloneSteps(s, id, link);
      }
    }
    if |s.queue| < QUEUE_MAX || id in s.seen {
      SoloIsLossless(h, s, PostAloneSteps(s, id, link), PostAlone(h, s, id, link));
    }
  }

  lemma PostAloneToFeed(h: string -> string, s: State, id: string, link: Step) returns (t: State)
    requires s.posts == map[] && link.Link? && link.p == 0 && id !in s.seen
    ensures t == AppendFeed(ClaimId(LinkPost(h, CheckId(s, 0, id), link), 0), 0)
    ensures t.posts.Keys == {0} && t.posts[0].InFeed? && t.queue == s.queue
    ensures Reaches(h, Solo, s, [Check(0, id), link, Claim(0), Append(0)], t)
  {
    var s1 := CheckId(s, 0, id);
    var s2 := LinkPost(h, s1, link);
    var s3 := ClaimId(s2, 0);
    t := AppendFeed(s3, 0);
    ReachesSnoc(h, Solo, s, [], s, Check(0, id));
    ReachesSnoc(h, Solo, s, [Check(0, id)], s1, link);
    assert [Check(0, id)] + [link] == [Check(0, id), link];
    ReachesSnoc(h, Solo, s, [Check(0, id), link], s2, Claim(0));
    assert [Check(0, id), link] + [Claim(0)] == [Check(0, id), link, Claim(0)];
    ReachesSnoc(h, Solo, s, [Check(0, id), link, Claim(0)], s3, Append(0));
    assert [Check(0, id), link, Claim(0)] + [Append(0)] == [Check(0, id), link, Claim(0), Append(0)];
  }

  // ---- The writer's round is a run of the step model ---------------------------------------

  predicate Shows(db: MessageDb, s: State)
    reads db
  {
    s.seen == db.seen && s.feed == db.feed && s.queue == db.queue && s.batch == [] && s.table == db.table
  }

  function WriterSteps(n: nat): seq<Step> {
    if n == 0 then [Commit] else [Take] + WriterSteps(n - 1)
  }

  /** n rows go from the queue to the batch, and the batch to the table. */
  lemma {:induction false} WriterRun(h: string -> string, s: State, n: nat) returns (t: State)
    requires DistinctIds(Stored(s)) && n <= |s.queue| && |s.batch| + n <= 200 && s.batch + s.queue[..n] != []
    ensures Reaches(h, Solo, s, WriterSteps(n), t)
    ensures t == s.(table := s.table + s.batch + s.queue[..n], batch := [], queue := s.queue[n..])
    decreases n
  {
    if n == 0 {
      assert s.batch + s.queue[..0] == s.batch && s.queue[0..] == s.queue;
      assert s.table + s.batch + s.queue[..0] == s.table + s.batch;
      t := Apply(h, s, Commit);
      CommitLands(s);
      assert [Commit][1..] == [];
    } else {
      var u := Apply(h, s, Take);
      assert Stored(u) == Stored(s);
      assert u.batch + u.queue[..n - 1] == s.batch + s.queue[..n];
      t := WriterRun(h, u, n - 1);
      assert u.table + u.batch + u.queue[..n - 1] == s.table + s.batch + s.queue[..n];
      assert u.queue[n - 1..] == s.queue[n..];
      assert ([Take] + WriterSteps(n - 1))[1..] == WriterSteps(n - 1);
    }
  }

  method WriterIsRun(db: MessageDb, ghost h: string -> string, ghost s: State) returns (ghost n: nat, ghost t: State)
    requires db.Valid() && Shows(db, s) && db.queue != []
    modifies db
    ensures db.Valid() && Reaches(h, Solo, s, WriterSteps(n), t) && Shows(db, t)
    ensures n == if |old(db.queue)| < 200 then |old(db.queue)| else 200
  {
    n := if |s.queue| < 200 then |s.queue| else 200;
    assert Stored(s) == db.table + db.queue;
    t := WriterRun(h, s, n);
    assert s.table + s.batch + s.queue[..n] == s.table + s.queue[..n];
    db.WriterCycle();
  }
}
