/**
 * SharedDB: the list, the id index and the merge on redelivery, as an object and as a fold over
 * its delivery log.
 */
module SharedDb {
  import opened Options
  import opened Text

  datatype Record = Record(
    id: int, msgId: string, username: string, displayName: string, ciphertext: string, signature: string,
    hmacDigest: string, timestamp: string, plaintext: string)

  /** One delivery: an `AddSingle` call, or an item of an `AddBatch` whose fields have been looked up. */
  datatype Delivery =
    | Single(msgId: string, username: string, plaintext: string, time: int)
    | Item(msgId: string, username: string, displayName: string, plaintext: string, ciphertext: string,
           signature: string, hmacDigest: string, timestamp: string)

  // ---- What the log means for one id ---------------------------------------------------------

  /** A batch item without an id is skipped; AddSingle takes any id. */
  predicate Relevant(d: Delivery, id: string) {
    d.msgId == id && (d.Item? ==> id != "")
  }

  /** The deliveries for one id, in order. */
  function For(log: seq<Delivery>, id: string): seq<Delivery> {
    if log == [] then []
    else if Relevant(log[|log| - 1], id) then For(log[..|log| - 1], id) + [log[|log| - 1]]
    else For(log[..|log| - 1], id)
  }

  datatype Field = Ciphertext | Signature | Digest

  /** What a delivery says about a replaceable field; an AddSingle says nothing. */
  function Get(d: Delivery, field: Field): string {
    if d.Single? then ""
    else
      match field
      case Ciphertext => d.ciphertext
      case Signature => d.signature
      case Digest => d.hmacDigest
  }

  /** The last non-empty value delivered for the field. */
  function LastOf(ds: seq<Delivery>, field: Field): string {
    if ds == [] then ""
    else if Get(ds[|ds| - 1], field) != "" then Get(ds[|ds| - 1], field)
    else LastOf(ds[..|ds| - 1], field)
  }

  /** The first non-empty plaintext; that of an AddSingle counts only when it is the `first` delivery. */
  function FirstText(ds: seq<Delivery>, first: bool): string {
    if ds == [] then ""
    else if ds[0].plaintext != "" && (ds[0].Item? || first) then ds[0].plaintext
    else FirstText(ds[1..], false)
  }

  function DisplayNameOf(d: Delivery): string {
    if d.Single? || d.displayName == "" then d.username else d.displayName
  }

  function TimestampOf(d: Delivery): string {
    if d.Single? then IntText(d.time) else d.timestamp
  }

  /** The record that the deliveries for one id amount to. */
  function Merged(n: int, ds: seq<Delivery>): Record
    requires ds != []
  {
    Record(n, ds[0].msgId, ds[0].username, DisplayNameOf(ds[0]), LastOf(ds, Ciphertext), LastOf(ds, Signature),
           LastOf(ds, Digest), TimestampOf(ds[0]), FirstText(ds, true))
  }

  /** The ids in the order of their first delivery. */
  function Order(log: seq<Delivery>): seq<string> {
    if log == [] then []
    else
      var before, d := Order(log[..|log| - 1]), log[|log| - 1];
      if Relevant(d, d.msgId) && d.msgId !in before then before + [d.msgId] else before
  }

  lemma {:induction false} OrderMeaning(log: seq<Delivery>, id: string)
    ensures id in Order(log) <==> For(log, id) != []
    ensures forall d :: d in For(log, id) ==> Relevant(d, id)
  {
    if log != [] {
      OrderMeaning(log[..|log| - 1], id);
    }
  }

  lemma {:induction false} OrderDistinct(log: seq<Delivery>)
    ensures forall i, j :: 0 <= i < j < |Order(log)| ==> Order(log)[i] != Order(log)[j]
  {
    if log != [] {
      OrderDistinct(log[..|log| - 1]);
    }
  }

  /** The list that the log amounts to: per id one merged record, numbered in first-delivery order. */
  ghost predicate Folds(messages: seq<Record>, log: seq<Delivery>) {
    && |messages| == |Order(log)|
    && forall i :: 0 <= i < |messages| ==> IsMerged(messages[i], i + 1, For(log, Order(log)[i]))
  }

  predicate IsMerged(rec: Record, n: int, ds: seq<Delivery>) {
    ds != [] && rec == Merged(n, ds)
  }

  // ---- The code's own step ------------------------------------------------------------------

  /** The index holds exactly the position of every listed id. */
  ghost predicate Indexes(index: map<string, nat>, messages: seq<Record>) {
    && (forall id :: id in index ==> index[id] < |messages| && messages[index[id]].msgId == id)
    && (forall i :: 0 <= i < |messages| ==> messages[i].msgId in index && index[messages[i].msgId] == i)
  }

  /** Redelivery: non-empty ciphertext, signature and digest replace, an empty plaintext is filled. */
  function Merge(rec: Record, d: Delivery): Record
    requires d.Item?
  {
    rec.(ciphertext := if d.ciphertext != "" then d.ciphertext else rec.ciphertext,
         signature := if d.signature != "" then d.signature else rec.signature,
         hmacDigest := if d.hmacDigest != "" then d.hmacDigest else rec.hmacDigest,
         plaintext := if rec.plaintext == "" && d.plaintext != "" then d.plaintext else rec.plaintext)
  }

  function NewRecord(n: int, d: Delivery): Record {
    match d
    case Single(msgId, username, plaintext, time) =>
      Record(n, msgId, username, username, "", "", "", IntText(time), plaintext)
    case Item(msgId, username, displayName, plaintext, ciphertext, signature, hmacDigest, timestamp) =>
      Record(n, msgId, username, if displayName == "" then username else displayName, ciphertext, signature,
             hmacDigest, timestamp, plaintext)
  }

  function Find(messages: seq<Record>, id: string): (found: Option<nat>)
    ensures found.None? ==> forall k :: 0 <= k < |messages| ==> messages[k].msgId != id
    ensures found.Some? ==> found.value < |messages| && messages[found.value].msgId == id
  {
    if messages == [] then None
    else if messages[|messages| - 1].msgId == id then Some(|messages| - 1)
    else Find(messages[..|messages| - 1], id)
  }

  /** The list after one delivery. */
  function Delivered(messages: seq<Record>, d: Delivery): seq<Record> {
    if !Relevant(d, d.msgId) then messages
    else
      match Find(messages, d.msgId)
      case None => messages + [NewRecord(|messages| + 1, d)]
      case Some(i) => if d.Item? then messages[i := Merge(messages[i], d)] else messages
  }

  class SharedDB {
    var messages: seq<Record>
    var indexMap: map<string, nat>
    var counter: int
    var cacheBytes: string
    var dirty: bool
    const marshal: seq<Record> -> string
    ghost var log: seq<Delivery>

    /** The list is the fold of the deliveries since the last reset, and the index is its inverse. */
    ghost predicate Sound()
      reads this
    {
      Folds(messages, log) && Indexes(indexMap, messages) && counter == |messages|
    }

    /** Outside the lock, a clean cache is the rendering of the list. */
    ghost predicate Valid()
      reads this
    {
      Sound() && marshal([]) == "[]" && (dirty || cacheBytes == marshal(messages))
    }

    constructor(marshal: seq<Record> -> string)
      requires marshal([]) == "[]"
      ensures Valid() && log == [] && messages == [] && !dirty && this.marshal == marshal
    {
      this.marshal := marshal;
      messages, indexMap, counter, cacheBytes, dirty, log := [], map[], 0, "[]", false, [];
    }

    method AddSingle(msgId: string, username: string, plaintext: string, timestamp: int)
      requires Valid()
      modifies this
      ensures Valid() && log == old(log) + [Single(msgId, username, plaintext, timestamp)]
      ensures messages == Delivered(old(messages), Single(msgId, username, plaintext, timestamp))
      ensures dirty <==> old(dirty) || messages != old(messages)
      ensures cacheBytes == old(cacheBytes)
    {
      DeliveredFolds(messages, log, Single(msgId, username, plaintext, timestamp));
      ghost var d := Single(msgId, username, plaintext, timestamp);
      IndexedIsOrdered(messages, indexMap, log, msgId);
      if msgId !in indexMap {
        var rec := Record(counter + 1, msgId, username, username, "", "", "", IntText(timestamp), plaintext);
        FoldNew(messages, log, d, rec);
        Append(rec);
        dirty := true;
      } else {
        FoldSingleAgain(messages, log, d);
      }
      log := log + [d];
      FoldsSame(messages, Delivered(old(messages), d), log);
    }

    /** The new-record branch that AddSingle and AddBatch share. */
    method Append(rec: Record)
      requires Indexes(indexMap, messages) && counter == |messages| && rec.msgId !in indexMap
      modifies `messages, `indexMap, `counter
      ensures Indexes(indexMap, messages) && counter == |messages|
      ensures messages == old(messages) + [rec]
    {
      IndexNew(messages, indexMap, rec);
      counter := counter + 1;
      indexMap := indexMap[rec.msgId := |messages|];
      messages := messages + [rec];
    }

    /** The merge of a batch item into the record at its position. */
    method MergeInto(i: nat, d: Delivery)
      requires d.Item? && i < |messages|
      modifies `messages
      ensures messages == old(messages[i := Merge(messages[i], d)])
    {
      var rec := messages[i];
      if d.ciphertext != "" {
        rec := rec.(ciphertext := d.ciphertext);
      }
      if d.signature != "" {
        rec := rec.(signature := d.signature);
      }
      if d.hmacDigest != "" {
        rec := rec.(hmacDigest := d.hmacDigest);
      }
      if rec.plaintext == "" && d.plaintext != "" {
        rec := rec.(plaintext := d.plaintext);
      }
      messages := messages[i := rec];
    }

    /** The branch of AddBatch for an id that is already listed. */
    method Redeliver(d: Delivery)
      requires Sound() && d.Item? && d.msgId != "" && d.msgId in indexMap
      modifies `messages, `log
      ensures Sound() && log == old(log) + [d] && |messages| == |old(messages)|
    {
      var i := indexMap[d.msgId];
      IndexedIsOrdered(messages, indexMap, log, d.msgId);
      FoldAgain(messages, log, d, i);
      IndexMerge(messages, indexMap, d);
      MergeInto(i, d);
      log := log + [d];
    }

    /** The branch of AddBatch for a new id. */
    method Insert(d: Delivery)
      requires Sound() && d.Item? && d.msgId != "" && d.msgId !in indexMap
      modifies `messages, `indexMap, `counter, `log
      ensures Sound() && log == old(log) + [d] && |messages| == |old(messages)| + 1
    {
      var displayName := d.displayName;
      if displayName == "" {
        displayName := d.username;
      }
      var rec := Record(counter + 1, d.msgId, d.username, displayName, d.ciphertext, d.signature, d.hmacDigest,
                        d.timestamp, d.plaintext);
      IndexedIsOrdered(messages, indexMap, log, d.msgId);
      FoldNew(messages, log, d, rec);
      Append(rec);
      log := log + [d];
    }

    /** One item of a batch; returns whether it was inserted. */
    method AddItem(d: Delivery) returns (inserted: bool)
      requires Sound() && d.Item?
      modifies `messages, `indexMap, `counter, `log
      ensures Sound() && log == old(log) + [d] && messages == Delivered(old(messages), d)
      ensures |messages| == |old(messages)| + if inserted then 1 else 0
    {
      inserted := false;
      DeliveredFolds(messages, log, d);
      if d.msgId == "" {
        FoldSkip(messages, log, d);
        log := log + [d];
      } else if d.msgId in indexMap {
        Redeliver(d);
      } else {
        Insert(d);
        inserted := true;
      }
      FoldsSame(messages, Delivered(old(messages), d), log);
    }

    method AddBatch(batch: seq<Delivery>) returns (inserted: int)
      requires Valid() && forall d :: d in batch ==> d.Item?
      modifies this
      ensures Valid() && log == old(log) + batch && dirty && cacheBytes == old(cacheBytes)
      ensures inserted == |messages| - |old(messages)|
    {
      hide Folds, Indexes;
      inserted := 0;
      for i := 0 to |batch|
        invariant Sound() && marshal([]) == "[]" && log == old(log) + batch[..i]
        invariant cacheBytes == old(cacheBytes)
        invariant inserted == |messages| - |old(messages)|
      {
        assert batch[..i + 1] == batch[..i] + [batch[i]];
        var added := AddItem(batch[i]);
        if added {
          inserted := inserted + 1;
        }
      }
      assert batch[..|batch|] == batch;
      dirty := true;
    }

    /** The cached rendering, refreshed first when it is out of date. */
    method GetMessagesBytes() returns (bytes: string)
      requires Valid()
      modifies `cacheBytes, `dirty
      ensures Valid() && !dirty && bytes == marshal(messages)
    {
      if dirty {
        cacheBytes := marshal(messages);
        dirty := false;
      }
      bytes := cacheBytes;
    }

    method Reset()
      requires marshal([]) == "[]"
      modifies this
      ensures Valid() && log == [] && messages == [] && indexMap == map[] && !dirty
    {
      messages, indexMap, counter, cacheBytes, dirty, log := [], map[], 0, "[]", false, [];
    }
  }

  // ---- Each step of the code is a step of the fold ---------------------------------------------

  lemma SnocOf(log: seq<Delivery>, d: Delivery)
    ensures (log + [d])[..|log + [d]| - 1] == log && (log + [d])[|log + [d]| - 1] == d
  {}

  lemma ForSnoc(log: seq<Delivery>, d: Delivery, id: string)
    ensures For(log + [d], id) == if Relevant(d, id) then For(log, id) + [d] else For(log, id)
  {
    SnocOf(log, d);
  }

  lemma OrderSnoc(log: seq<Delivery>, d: Delivery)
    ensures Order(log + [d]) == if Relevant(d, d.msgId) && d.msgId !in Order(log) then Order(log) + [d.msgId] else Order(log)
  {
    SnocOf(log, d);
  }

  lemma IdsOf(messages: seq<Record>, log: seq<Delivery>, i: nat)
    requires Folds(messages, log) && i < |messages|
    ensures messages[i].msgId == Order(log)[i]
  {
    OrderMeaning(log, Order(log)[i]);
    var ds := For(log, Order(log)[i]);
    assert IsMerged(messages[i], i + 1, ds);
    assert ds[0] in ds;
  }

  lemma IndexedIsOrdered(messages: seq<Record>, index: map<string, nat>, log: seq<Delivery>, id: string)
    requires Folds(messages, log) && Indexes(index, messages)
    ensures id in index <==> id in Order(log)
    ensures id in index ==> Order(log)[index[id]] == id
  {
    if id in index {
      IdsOf(messages, log, index[id]);
    }
    if id in Order(log) {
      var i :| 0 <= i < |Order(log)| && Order(log)[i] == id;
      IdsOf(messages, log, i);
    }
  }

  /** A delivery for an id not yet listed leaves every other id's record as it was. */
  lemma MergedOther(rec: Record, n: int, log: seq<Delivery>, d: Delivery, id: string)
    requires IsMerged(rec, n, For(log, id)) && d.msgId != id
    ensures IsMerged(rec, n, For(log + [d], id))
  {
    ForSnoc(log, d, id);
  }

  lemma MergedFirst(n: int, log: seq<Delivery>, d: Delivery)
    requires Relevant(d, d.msgId) && d.msgId !in Order(log)
    ensures IsMerged(NewRecord(n, d), n, For(log + [d], d.msgId))
  {
    ForSnoc(log, d, d.msgId);
    OrderMeaning(log, d.msgId);
    assert For(log, d.msgId) + [d] == [d];
    MergedOne(n, d);
  }

  lemma FoldNew(messages: seq<Record>, log: seq<Delivery>, d: Delivery, rec: Record)
    requires Folds(messages, log) && Relevant(d, d.msgId) && d.msgId !in Order(log)
    requires rec == NewRecord(|messages| + 1, d)
    ensures Folds(messages + [rec], log + [d])
  {
    hide For, Order, IsMerged, NewRecord;
    OrderSnoc(log, d);
    MergedFirst(|messages| + 1, log, d);
    forall i | 0 <= i < |messages| ensures IsMerged(messages[i], i + 1, For(log + [d], Order(log)[i])) {
      MergedOther(messages[i], i + 1, log, d, Order(log)[i]);
    }
  }

  lemma IndexNew(messages: seq<Record>, index: map<string, nat>, rec: Record)
    requires Indexes(index, messages) && rec.msgId !in index
    ensures Indexes(index[rec.msgId := |messages|], messages + [rec])
  {}

  lemma IndexMerge(messages: seq<Record>, index: map<string, nat>, d: Delivery)
    requires Indexes(index, messages) && d.Item? && d.msgId in index
    ensures var i := index[d.msgId]; Indexes(index, messages[i := Merge(messages[i], d)])
  {}

  lemma LastOfOne(d: Delivery, field: Field)
    ensures LastOf([d], field) == Get(d, field)
  {
    assert [d][..|[d]| - 1] == [];
  }

  lemma FirstTextOne(d: Delivery, first: bool)
    ensures FirstText([d], first) == if d.Item? || first then d.plaintext else ""
  {
    assert [d][1..] == [];
  }

  lemma MergedOne(n: int, d: Delivery)
    ensures IsMerged(NewRecord(n, d), n, [d])
  {
    LastOfOne(d, Ciphertext);
    LastOfOne(d, Signature);
    LastOfOne(d, Digest);
    FirstTextOne(d, true);
  }

  lemma LastOfSnoc(ds: seq<Delivery>, d: Delivery, field: Field)
    ensures LastOf(ds + [d], field) == if Get(d, field) != "" then Get(d, field) else LastOf(ds, field)
  {
    SnocOf(ds, d);
  }

  lemma {:induction false} FirstTextConcat(a: seq<Delivery>, b: seq<Delivery>, first: bool)
    ensures FirstText(a + b, first) ==
            if FirstText(a, first) != "" then FirstText(a, first) else FirstText(b, first && a == [])
    decreases a
  {
    if a == [] {
      assert a + b == b;
    } else {
      assert (a + b)[1..] == a[1..] + b;
      FirstTextConcat(a[1..], b, false);
    }
  }

  /** One more delivery for an id already there changes its merged record as the code's merge does. */
  lemma MergedSnoc(n: int, ds: seq<Delivery>, d: Delivery)
    requires ds != []
    ensures Merged(n, ds + [d]) == if d.Item? then Merge(Merged(n, ds), d) else Merged(n, ds)
  {
    LastOfSnoc(ds, d, Ciphertext);
    LastOfSnoc(ds, d, Signature);
    LastOfSnoc(ds, d, Digest);
    FirstTextConcat(ds, [d], true);
    FirstTextOne(d, false);
  }

  lemma FoldAgain(messages: seq<Record>, log: seq<Delivery>, d: Delivery, i: nat)
    requires Folds(messages, log) && d.Item? && d.msgId != "" && i < |messages| && Order(log)[i] == d.msgId
    ensures Folds(messages[i := Merge(messages[i], d)], log + [d])
  {
    var more := messages[i := Merge(messages[i], d)];
    OrderSnoc(log, d);
    OrderDistinct(log);
    forall j | 0 <= j < |more| ensures IsMerged(more[j], j + 1, For(log + [d], Order(log + [d])[j])) {
      ForSnoc(log, d, Order(log)[j]);
      assert IsMerged(messages[j], j + 1, For(log, Order(log)[j]));
      if j == i {
        MergedSnoc(i + 1, For(log, d.msgId), d);
      }
    }
  }

  lemma FoldSingleAgain(messages: seq<Record>, log: seq<Delivery>, d: Delivery)
    requires Folds(messages, log) && d.Single? && d.msgId in Order(log)
    ensures Folds(messages, log + [d])
  {
    OrderSnoc(log, d);
    forall j | 0 <= j < |messages| ensures IsMerged(messages[j], j + 1, For(log + [d], Order(log + [d])[j])) {
      ForSnoc(log, d, Order(log)[j]);
      assert IsMerged(messages[j], j + 1, For(log, Order(log)[j]));
      MergedSnoc(j + 1, For(log, Order(log)[j]), d);
    }
  }

  lemma FoldSkip(messages: seq<Record>, log: seq<Delivery>, d: Delivery)
    requires Folds(messages, log) && d.Item? && d.msgId == ""
    ensures Folds(messages, log + [d])
  {
    OrderSnoc(log, d);
    forall j | 0 <= j < |messages| ensures IsMerged(messages[j], j + 1, For(log + [d], Order(log + [d])[j])) {
      ForSnoc(log, d, Order(log)[j]);
      assert IsMerged(messages[j], j + 1, For(log, Order(log)[j]));
    }
  }

  lemma OrderedIsListed(messages: seq<Record>, log: seq<Delivery>, id: string)
    requires Folds(messages, log) && id in Order(log)
    ensures exists i :: 0 <= i < |messages| && messages[i].msgId == id
  {
    var i :| 0 <= i < |Order(log)| && Order(log)[i] == id;
    IdsOf(messages, log, i);
  }

  /** One delivery takes the fold of the log to the fold of the longer log. */
  lemma DeliveredFolds(messages: seq<Record>, log: seq<Delivery>, d: Delivery)
    requires Folds(messages, log)
    ensures Folds(Delivered(messages, d), log + [d])
  {
    hide Folds, Order, Merge, NewRecord;
    if !Relevant(d, d.msgId) {
      FoldSkip(messages, log, d);
    } else if d.msgId !in Order(log) {
      NotListed(messages, log, d.msgId);
      FoldNew(messages, log, d, NewRecord(|messages| + 1, d));
    } else {
      OrderedIsListed(messages, log, d.msgId);
      var i := Find(messages, d.msgId).value;
      Listed(messages, log, i);
      if d.Item? {
        FoldAgain(messages, log, d, i);
      } else {
        FoldSingleAgain(messages, log, d);
      }
    }
  }

  lemma NotListed(messages: seq<Record>, log: seq<Delivery>, id: string)
    requires Folds(messages, log) && id !in Order(log)
    ensures Find(messages, id).None?
  {
    if Find(messages, id).Some? {
      IdsOf(messages, log, Find(messages, id).value);
    }
  }

  lemma Listed(messages: seq<Record>, log: seq<Delivery>, i: nat)
    requires Folds(messages, log) && i < |messages|
    ensures i < |Order(log)| && Order(log)[i] == messages[i].msgId
  {
    IdsOf(messages, log, i);
  }

  /** The log determines the list. */
  lemma FoldsSame(a: seq<Record>, b: seq<Record>, log: seq<Delivery>)
    requires Folds(a, log) && Folds(b, log)
    ensures a == b
  {
    forall k | 0 <= k < |a| ensures a[k] == b[k] {
      assert IsMerged(a[k], k + 1, For(log, Order(log)[k])) && IsMerged(b[k], k + 1, For(log, Order(log)[k]));
    }
  }

  // ---- Batch algebra -------------------------------------------------------------------------

  /** The log determines the list and its index, so batches compose as their logs do. */
  lemma FoldUnique(a: seq<Record>, b: seq<Record>, ia: map<string, nat>, ib: map<string, nat>, log: seq<Delivery>)
    requires Folds(a, log) && Folds(b, log) && Indexes(ia, a) && Indexes(ib, b)
    ensures a == b && ia == ib
  {
    FoldsSame(a, b, log);
    IndexUnique(ia, ib, a);
  }

  lemma {:induction false} ForConcat(a: seq<Delivery>, b: seq<Delivery>, id: string)
    ensures For(a + b, id) == For(a, id) + For(b, id)
    decreases b
  {
    if b == [] {
      assert a + b == a;
    } else {
      var init, d := b[..|b| - 1], b[|b| - 1];
      assert a + b == (a + init) + [d] && b == init + [d];
      ForConcat(a, init, id);
      ForSnoc(a + init, d, id);
      ForSnoc(init, d, id);
    }
  }

  lemma {:induction false} OrderAgain(a: seq<Delivery>, b: seq<Delivery>)
    requires forall d :: d in b && Relevant(d, d.msgId) ==> d.msgId in Order(a)
    ensures Order(a + b) == Order(a)
    decreases b
  {
    if b == [] {
      assert a + b == a;
    } else {
      var init, d := b[..|b| - 1], b[|b| - 1];
      assert a + b == (a + init) + [d];
      OrderAgain(a, init);
      OrderSnoc(a + init, d);
    }
  }

  lemma {:induction false} OrderHolds(a: seq<Delivery>, b: seq<Delivery>, d: Delivery)
    requires d in b && Relevant(d, d.msgId)
    ensures d.msgId in Order(a + b)
    decreases b
  {
    var init, last := b[..|b| - 1], b[|b| - 1];
    assert a + b == (a + init) + [last] && b == init + [last];
    OrderSnoc(a + init, last);
    if d in init {
      OrderHolds(a, init, d);
    }
  }

  lemma {:induction false} LastOfConcat(a: seq<Delivery>, b: seq<Delivery>, field: Field)
    ensures LastOf(a + b, field) == if LastOf(b, field) != "" then LastOf(b, field) else LastOf(a, field)
    decreases b
  {
    if b == [] {
      assert a + b == a;
    } else {
      var init, last := b[..|b| - 1], b[|b| - 1];
      assert a + b == (a + init) + [last];
      LastOfSnoc(a + init, last, field);
      LastOfConcat(a, init, field);
    }
  }

  lemma LastOfTwice(xs: seq<Delivery>, ys: seq<Delivery>, field: Field)
    ensures LastOf(xs + ys + ys, field) == LastOf(xs + ys, field)
  {
    LastOfConcat(xs, ys, field);
    LastOfConcat(xs + ys, ys, field);
  }

  /** Delivering the same items once more changes no merged record. */
  lemma MergedTwice(n: int, xs: seq<Delivery>, ys: seq<Delivery>)
    requires xs + ys != [] && forall d :: d in ys ==> d.Item?
    ensures Merged(n, xs + ys + ys) == Merged(n, xs + ys)
  {
    LastOfTwice(xs, ys, Ciphertext);
    LastOfTwice(xs, ys, Signature);
    LastOfTwice(xs, ys, Digest);
    FirstTextTwice(xs, ys);
  }

  lemma {:induction false} FirstTextItems(ys: seq<Delivery>, first: bool)
    requires forall d :: d in ys ==> d.Item?
    ensures FirstText(ys, first) == FirstText(ys, true)
    decreases ys
  {
    if ys != [] {
      FirstTextItems(ys[1..], false);
    }
  }

  lemma FirstTextTwice(xs: seq<Delivery>, ys: seq<Delivery>)
    requires xs + ys != [] && forall d :: d in ys ==> d.Item?
    ensures FirstText(xs + ys + ys, true) == FirstText(xs + ys, true)
  {
    FirstTextConcat(xs, ys, true);
    FirstTextConcat(xs + ys, ys, true);
    FirstTextItems(ys, xs == []);
    FirstTextItems(ys, false);
  }

  /** Redelivering a batch right away inserts nothing and leaves list and index as they are. */
  lemma RedeliveryIsIdle(once: seq<Record>, twice: seq<Record>, i1: map<string, nat>, i2: map<string, nat>,
                         log: seq<Delivery>, batch: seq<Delivery>)
    requires forall d :: d in batch ==> d.Item?
    requires Folds(once, log + batch) && Indexes(i1, once)
    requires Folds(twice, log + batch + batch) && Indexes(i2, twice)
    ensures twice == once && i1 == i2
  {
    forall d | d in batch && Relevant(d, d.msgId) ensures d.msgId in Order(log + batch) {
      OrderHolds(log, batch, d);
    }
    OrderAgain(log + batch, batch);
    forall k | 0 <= k < |once| ensures once[k] == twice[k] {
      var id := Order(log + batch)[k];
      assert IsMerged(once[k], k + 1, For(log + batch, id)) && IsMerged(twice[k], k + 1, For(log + batch + batch, id));
      ForConcat(log, batch, id);
      ForConcat(log + batch, batch, id);
      ForItems(batch, id);
      MergedTwice(k + 1, For(log, id), For(batch, id));
    }
    assert once == twice;
    IndexUnique(i1, i2, once);
  }

  lemma IndexUnique(i1: map<string, nat>, i2: map<string, nat>, messages: seq<Record>)
    requires Indexes(i1, messages) && Indexes(i2, messages)
    ensures i1 == i2
  {
    assert forall id :: id in i1 ==> id in i2 && i1[id] == i2[id];
    assert forall id :: id in i2 ==> id in i1;
  }

  lemma {:induction false} ForItems(batch: seq<Delivery>, id: string)
    requires forall d :: d in batch ==> d.Item?
    ensures forall d :: d in For(batch, id) ==> d.Item?
    decreases batch
  {
    if batch != [] {
      ForItems(batch[..|batch| - 1], id);
    }
  }

  /**
   * The batch algebra on the object: two batches in a row leave the same list and index as their
   * concatenation, with the inserted counts adding up, and a third, repeated delivery does nothing.
   */
  method BatchAlgebra(db: SharedDB, whole: SharedDB, a: seq<Delivery>, b: seq<Delivery>)
    returns (na: int, nb: int, nab: int, again: int)
    requires db != whole && db.Valid() && whole.Valid() && db.log == whole.log
    requires forall d :: d in a + b ==> d.Item?
    modifies db, whole
    ensures db.messages == whole.messages && db.indexMap == whole.indexMap
    ensures na + nb == nab && again == 0
  {
    ghost var log := db.log;
    FoldUnique(db.messages, whole.messages, db.indexMap, whole.indexMap, log);
    assert forall d :: d in a ==> d in a + b;
    assert forall d :: d in b ==> d in a + b;
    na := db.AddBatch(a);
    nb := db.AddBatch(b);
    nab := whole.AddBatch(a + b);
    assert log + a + b == log + (a + b);
    FoldUnique(db.messages, whole.messages, db.indexMap, whole.indexMap, log + (a + b));
    ghost var once, index := db.messages, db.indexMap;
    again := db.AddBatch(b);
    RedeliveryIsIdle(once, db.messages, index, db.indexMap, log + a, b);
  }
}
