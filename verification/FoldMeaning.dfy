/** What the fold of a delivery log is, in terms of the places of the log alone. */
module FoldMeaning {
  import opened SharedDb
  import opened Text

  /** The delivery at place k is for the id; a batch item without an id is for none. */
  predicate Carries(log: seq<Delivery>, k: nat, id: string)
    requires k < |log|
  {
    log[k].msgId == id && (log[k].Item? ==> id != "")
  }

  /** Place k is the first that carries the id. */
  predicate IsFirst(log: seq<Delivery>, k: nat, id: string) {
    k < |log| && Carries(log, k, id) && forall j :: 0 <= j < k ==> !Carries(log, j, id)
  }

  /** `value` is the last non-empty one that the id's deliveries have for the field, or all are empty. */
  ghost predicate LastSaid(log: seq<Delivery>, id: string, field: Field, value: string) {
    if value == "" then forall k :: 0 <= k < |log| && Carries(log, k, id) ==> Get(log[k], field) == ""
    else
      exists k :: 0 <= k < |log| && Carries(log, k, id) && Get(log[k], field) == value
                  && forall j :: k < j < |log| && Carries(log, j, id) ==> Get(log[j], field) == ""
  }

  /** A plaintext counts in any batch item, and in an AddSingle that is the id's first delivery. */
  predicate TextCounts(log: seq<Delivery>, k: nat, id: string)
    requires k < |log|
  {
    Carries(log, k, id) && log[k].plaintext != "" && (log[k].Item? || IsFirst(log, k, id))
  }

  /** `value` is the first plaintext that counts, or there is none. */
  ghost predicate FirstSaid(log: seq<Delivery>, id: string, value: string) {
    if value == "" then forall k :: 0 <= k < |log| ==> !TextCounts(log, k, id)
    else
      exists k :: 0 <= k < |log| && TextCounts(log, k, id) && log[k].plaintext == value
                  && forall j :: 0 <= j < k ==> !TextCounts(log, j, id)
  }

  // ---- One id ---------------------------------------------------------------------------------------------

  lemma Snoc(log: seq<Delivery>) returns (init: seq<Delivery>, d: Delivery, n: nat)
    requires log != []
    ensures init == log[..|log| - 1] && n == |init| && d == log[n] && log == init + [d]
    ensures forall id :: For(log, id) == if Relevant(d, id) then For(init, id) + [d] else For(init, id)
    ensures forall k, id :: 0 <= k < n ==> (Carries(log, k, id) <==> Carries(init, k, id))
    ensures forall id :: Carries(log, n, id) <==> Relevant(d, id)
  {
    init, d, n := log[..|log| - 1], log[|log| - 1], |log| - 1;
  }

  lemma {:induction false} ForMeaning(log: seq<Delivery>, id: string)
    ensures For(log, id) != [] <==> exists k :: 0 <= k < |log| && Carries(log, k, id)
    ensures For(log, id) != [] ==> exists k: nat :: IsFirst(log, k, id) && log[k] == For(log, id)[0]
    decreases log
  {
    if log != [] {
      var init, d, n := Snoc(log);
      ForMeaning(init, id);
      if For(init, id) != [] {
        var k: nat :| IsFirst(init, k, id) && init[k] == For(init, id)[0];
        assert IsFirst(log, k, id);
      } else if Relevant(d, id) {
        assert IsFirst(log, n, id);
      }
    }
  }

  /** A delivery for another id, or one without the field, leaves the last word as it was. */
  lemma LastStays(init: seq<Delivery>, d: Delivery, id: string, field: Field, v: string)
    requires LastSaid(init, id, field, v) && (Relevant(d, id) ==> Get(d, field) == "")
    ensures LastSaid(init + [d], id, field, v)
  {
    hide Get;
    var log := init + [d];
    assert forall k :: 0 <= k < |init| ==> (Carries(log, k, id) <==> Carries(init, k, id));
    if v != "" {
      var k :| 0 <= k < |init| && Carries(init, k, id) && Get(init[k], field) == v
               && forall j :: k < j < |init| && Carries(init, j, id) ==> Get(init[j], field) == "";
      assert Carries(log, k, id) && Get(log[k], field) == v;
    }
  }

  lemma LastIsNew(init: seq<Delivery>, d: Delivery, id: string, field: Field)
    requires Relevant(d, id) && Get(d, field) != ""
    ensures LastSaid(init + [d], id, field, Get(d, field))
  {
    hide Get;
    var log := init + [d];
    assert Carries(log, |init|, id) && log[|init|] == d;
  }

  lemma {:induction false} LastMeaning(log: seq<Delivery>, id: string, field: Field)
    ensures LastSaid(log, id, field, LastOf(For(log, id), field))
    decreases log
  {
    if log != [] {
      hide LastSaid, Get, Carries;
      var init, d, n := Snoc(log);
      LastMeaning(init, id, field);
      if Relevant(d, id) {
        LastOfSnoc(For(init, id), d, field);
      }
      if Relevant(d, id) && Get(d, field) != "" {
        LastIsNew(init, d, id, field);
      } else {
        LastStays(init, d, id, field, LastOf(For(init, id), field));
      }
    }
  }

  lemma TextOfSnoc(ds: seq<Delivery>, d: Delivery)
    ensures FirstText(ds + [d], true) ==
            if FirstText(ds, true) != "" then FirstText(ds, true) else if d.Item? || ds == [] then d.plaintext else ""
  {
    FirstTextConcat(ds, [d], true);
    FirstTextOne(d, ds == []);
  }

  /** An earlier place counts, or does not, whatever comes after it. */
  lemma CountsBefore(log: seq<Delivery>, init: seq<Delivery>, k: nat, id: string)
    requires k < |init| && init <= log
    ensures TextCounts(log, k, id) <==> TextCounts(init, k, id)
  {
    assert forall j :: 0 <= j <= k ==> (Carries(log, j, id) <==> Carries(init, j, id));
  }

  lemma {:induction false} TextMeaning(log: seq<Delivery>, id: string)
    ensures FirstSaid(log, id, FirstText(For(log, id), true))
    decreases log
  {
    if log != [] {
      var init, d, n := Snoc(log);
      TextMeaning(init, id);
      TextOfSnoc(For(init, id), d);
      ForMeaning(init, id);
      forall k | 0 <= k < n ensures TextCounts(log, k, id) <==> TextCounts(init, k, id) {
        CountsBefore(log, init, k, id);
      }
      var v := FirstText(For(init, id), true);
      if v != "" {
        var k :| 0 <= k < |init| && TextCounts(init, k, id) && init[k].plaintext == v
                 && forall j :: 0 <= j < k ==> !TextCounts(init, j, id);
        assert TextCounts(log, k, id) && log[k].plaintext == v;
      } else if TextCounts(log, n, id) {
        assert log[n].plaintext == d.plaintext;
      }
    }
  }

  // ---- The list -----------------------------------------------------------------------------------------

  /** Place i of the ids in order is that of the id whose first delivery stands at `k`, and later ids come later. */
  lemma {:induction false} OrderIsByFirst(log: seq<Delivery>, i: nat, j: nat, k: nat, m: nat)
    requires i < j < |Order(log)| && IsFirst(log, k, Order(log)[i]) && IsFirst(log, m, Order(log)[j])
    ensures k < m
    decreases log
  {
    var init, d, n := Snoc(log);
    OrderSnoc(init, d);
    OrderMeaning(init, Order(log)[i]);
    ForMeaning(init, Order(log)[i]);
    if j < |Order(init)| {
      OrderMeaning(init, Order(log)[j]);
      ForMeaning(init, Order(log)[j]);
      assert IsFirst(init, k, Order(init)[i]) && IsFirst(init, m, Order(init)[j]);
      OrderIsByFirst(init, i, j, k, m);
    } else {
      OrderMeaning(init, Order(log)[j]);
      ForMeaning(init, Order(log)[j]);
    }
  }

  /** An id is listed exactly when some delivery carries it. */
  lemma ListedMeaning(messages: seq<Record>, log: seq<Delivery>, id: string)
    requires Folds(messages, log)
    ensures (exists i :: 0 <= i < |messages| && messages[i].msgId == id) <==>
            exists k :: 0 <= k < |log| && Carries(log, k, id)
  {
    OrderMeaning(log, id);
    ForMeaning(log, id);
    if id in Order(log) {
      OrderedIsListed(messages, log, id);
    }
    if i :| 0 <= i < |messages| && messages[i].msgId == id {
      IdsOf(messages, log, i);
    }
  }

  /**
   * The record at place i of the list: its number, name and time come from the id's first delivery,
   * ciphertext, signature and digest are the last non-empty ones, the plaintext is the first.
   */
  lemma RecordMeaning(messages: seq<Record>, log: seq<Delivery>, i: nat) returns (k: nat)
    requires Folds(messages, log) && i < |messages|
    ensures var r := messages[i];
            && r.id == i + 1 && IsFirst(log, k, r.msgId) && r.username == log[k].username
            && r.displayName == (if log[k].Item? && log[k].displayName != "" then log[k].displayName else log[k].username)
            && r.timestamp == (if log[k].Item? then log[k].timestamp else IntText(log[k].time))
            && LastSaid(log, r.msgId, Ciphertext, r.ciphertext) && LastSaid(log, r.msgId, Signature, r.signature)
            && LastSaid(log, r.msgId, Digest, r.hmacDigest) && FirstSaid(log, r.msgId, r.plaintext)
  {
    var id := Order(log)[i];
    var ds := For(log, id);
    assert IsMerged(messages[i], i + 1, ds);
    IdsOf(messages, log, i);
    ForMeaning(log, id);
    k :| IsFirst(log, k, id) && log[k] == ds[0];
    hide LastSaid, FirstSaid, For, Order;
    LastMeaning(log, id, Ciphertext);
    LastMeaning(log, id, Signature);
    LastMeaning(log, id, Digest);
    TextMeaning(log, id);
  }

  /** The list is in the order of first deliveries. */
  lemma ListOrder(messages: seq<Record>, log: seq<Delivery>, i: nat, j: nat, k: nat, m: nat)
    requires Folds(messages, log) && i < j < |messages|
    requires IsFirst(log, k, messages[i].msgId) && IsFirst(log, m, messages[j].msgId)
    ensures k < m
  {
    IdsOf(messages, log, i);
    IdsOf(messages, log, j);
    OrderIsByFirst(log, i, j, k, m);
  }
}
