/** What encoding/json makes of an object that it decodes into the message struct, member by member. */
module Decoding {
  import opened FeedRecord
  import opened Json
  import opened Options
  import opened Text

  predicate StringTag(tag: string) {
    tag == "id" || tag == "client-name" || tag == "msg"
  }

  function TextOf(m: FeedMessage, tag: string): string
    requires StringTag(tag)
  {
    if tag == "id" then m.id else if tag == "client-name" then m.clientName else m.msg
  }

  /** A member fits: it is null, or its key is no tag, or its value has the type of the tag's field. */
  predicate Fits(key: string, value: Json) {
    value.Null?
    || ((IsKey(key, "id") || IsKey(key, "client-name") || IsKey(key, "msg") ==> value.Str?)
        && (IsKey(key, "timestamp") ==>
              value.Number? && IsDecimal(value.text)
              && -0x8000_0000_0000_0000 <= IntValue(value.text) <= 0x7fff_ffff_ffff_ffff))
  }

  /** Members from `from` on leave the field with this tag alone: none has its key, except with null. */
  predicate Silent(members: seq<(string, Json)>, from: nat, tag: string) {
    forall j :: from <= j < |members| && IsKey(members[j].0, tag) ==> members[j].1.Null?
  }

  /** The member at k has the last word on the field. */
  predicate LastWord(members: seq<(string, Json)>, k: nat, tag: string) {
    k < |members| && IsKey(members[k].0, tag) && !members[k].1.Null? && Silent(members, k + 1, tag)
  }

  /** A string field is what the last word says, or `before` without one. */
  ghost predicate TextDecoded(members: seq<(string, Json)>, tag: string, before: string, after: string) {
    || (Silent(members, 0, tag) && after == before)
    || exists k: nat :: LastWord(members, k, tag) && members[k].1 == Str(after)
  }

  ghost predicate TimeDecoded(members: seq<(string, Json)>, before: int, after: int) {
    || (Silent(members, 0, "timestamp") && after == before)
    || exists k: nat :: LastWord(members, k, "timestamp") && members[k].1.Number?
                        && IsDecimal(members[k].1.text) && IntValue(members[k].1.text) == after
  }

  /** A key is a lower-case tag when it spells it in any mixture of upper and lower case. */
  lemma KeyMeaning(key: string, tag: string)
    requires forall k :: 0 <= k < |tag| ==> !('A' <= tag[k] <= 'Z')
    ensures IsKey(key, tag) <==>
            |key| == |tag| && forall k :: 0 <= k < |key| ==>
              key[k] == tag[k] || ('A' <= key[k] <= 'Z' && key[k] as int + 32 == tag[k] as int)
  {
    var low := LowerText(key);
    if |key| == |tag| && forall k :: 0 <= k < |key| ==>
         key[k] == tag[k] || ('A' <= key[k] <= 'Z' && key[k] as int + 32 == tag[k] as int) {
      forall k | 0 <= k < |key| ensures low[k] == tag[k] {
        assert low[k] == Lower(key[k]);
      }
    }
    if low == tag {
      forall k | 0 <= k < |key|
        ensures key[k] == tag[k] || ('A' <= key[k] <= 'Z' && key[k] as int + 32 == tag[k] as int)
      {
        assert low[k] == Lower(key[k]);
      }
    }
  }

  lemma OneTag(key: string, a: string, b: string)
    requires IsKey(key, a) && IsKey(key, b)
    ensures a == b
  {}

  /** One member: what does not fit is an error; what fits sets the field of its tag and no other. */
  lemma FieldMeaning(m: FeedMessage, key: string, value: Json)
    ensures SetField(m, key, value).Some? <==> Fits(key, value)
    ensures SetField(m, key, value).Some? ==>
              forall tag :: StringTag(tag) ==>
                TextOf(SetField(m, key, value).value, tag) ==
                if IsKey(key, tag) && value.Str? then value.text else TextOf(m, tag)
    ensures SetField(m, key, value).Some? ==>
              SetField(m, key, value).value.timestamp ==
              if IsKey(key, "timestamp") && value.Number? && IsDecimal(value.text) then IntValue(value.text) else m.timestamp
  {
    hide LowerText, IsDecimal, IntValue;
    assert "id" != "client-name" && "id" != "msg" && "client-name" != "msg";
    assert |"timestamp"| == 9 && |"client-name"| == 11 && |"msg"| == 3 && |"id"| == 2;
  }

  /** Words on the rest of the members are words on all of them. */
  lemma LastWordCons(members: seq<(string, Json)>, k: nat, tag: string)
    requires members != [] && LastWord(members[1..], k, tag)
    ensures LastWord(members, k + 1, tag)
  {
    hide IsKey;
    forall j | k + 2 <= j < |members| && IsKey(members[j].0, tag) ensures members[j].1.Null? {
      assert members[1..][j - 1] == members[j];
    }
  }

  lemma SilentCons(members: seq<(string, Json)>, tag: string)
    requires members != [] && Silent(members[1..], 0, tag)
    ensures Silent(members, 1, tag)
  {
    hide IsKey;
    forall j | 1 <= j < |members| && IsKey(members[j].0, tag) ensures members[j].1.Null? {
      assert members[1..][j - 1] == members[j];
    }
  }

  lemma TextCons(members: seq<(string, Json)>, tag: string, a: string, b: string, c: string)
    requires members != [] && TextDecoded(members[1..], tag, b, c)
    requires IsKey(members[0].0, tag) ==> members[0].1.Null? || members[0].1.Str?
    requires b == if IsKey(members[0].0, tag) && members[0].1.Str? then members[0].1.text else a
    ensures TextDecoded(members, tag, a, c)
  {
    hide IsKey;
    if k: nat :| LastWord(members[1..], k, tag) && members[1..][k].1 == Str(c) {
      LastWordCons(members, k, tag);
      assert members[k + 1].1 == Str(c);
    } else {
      SilentCons(members, tag);
      if IsKey(members[0].0, tag) && members[0].1.Str? {
        assert LastWord(members, 0, tag) && members[0].1 == Str(c);
      }
    }
  }

  lemma TimeCons(members: seq<(string, Json)>, a: int, b: int, c: int)
    requires members != [] && TimeDecoded(members[1..], b, c) && Fits(members[0].0, members[0].1)
    requires b == if IsKey(members[0].0, "timestamp") && members[0].1.Number? && IsDecimal(members[0].1.text)
                  then IntValue(members[0].1.text) else a
    ensures TimeDecoded(members, a, c)
  {
    hide IsKey, IsDecimal, IntValue;
    var tag := "timestamp";
    if k: nat :| LastWord(members[1..], k, tag) && members[1..][k].1.Number?
                 && IsDecimal(members[1..][k].1.text) && IntValue(members[1..][k].1.text) == c {
      LastWordCons(members, k, tag);
      assert members[k + 1].1 == members[1..][k].1;
    } else {
      SilentCons(members, tag);
      if IsKey(members[0].0, tag) && !members[0].1.Null? {
        assert LastWord(members, 0, tag);
      }
    }
  }

  /**
   * Decoding fails exactly when some member does not fit; otherwise each field is what the last member
   * with its key, in any case of letters, and not null says, and stays as it was without one.
   */
  lemma {:induction false} DecodeMeaning(m: FeedMessage, members: seq<(string, Json)>)
    ensures SetFields(m, members).Some? <==> forall k :: 0 <= k < |members| ==> Fits(members[k].0, members[k].1)
    ensures SetFields(m, members).Some? ==>
              var after := SetFields(m, members).value;
              && TextDecoded(members, "id", m.id, after.id)
              && TextDecoded(members, "client-name", m.clientName, after.clientName)
              && TextDecoded(members, "msg", m.msg, after.msg)
              && TimeDecoded(members, m.timestamp, after.timestamp)
    decreases members
  {
    hide Fits, IsKey, SetField;
    if members != [] {
      var key, value, rest := members[0].0, members[0].1, members[1..];
      FieldMeaning(m, key, value);
      assert forall k :: 0 <= k < |rest| ==> rest[k] == members[k + 1];
      if SetField(m, key, value).Some? {
        var u := SetField(m, key, value).value;
        DecodeMeaning(u, rest);
        if SetFields(u, rest).Some? {
          var after := SetFields(u, rest).value;
          FitsText(key, value);
          assert TextOf(u, "id") == u.id && TextOf(u, "client-name") == u.clientName && TextOf(u, "msg") == u.msg;
          hide TextDecoded, TimeDecoded;
          TextCons(members, "id", m.id, u.id, after.id);
          TextCons(members, "client-name", m.clientName, u.clientName, after.clientName);
          TextCons(members, "msg", m.msg, u.msg, after.msg);
          TimeCons(members, m.timestamp, u.timestamp, after.timestamp);
        }
        FitsAll(members);
      } else {
        FitsAll(members);
      }
    }
  }

  lemma FitsText(key: string, value: Json)
    requires Fits(key, value)
    ensures IsKey(key, "id") || IsKey(key, "client-name") || IsKey(key, "msg") ==> value.Null? || value.Str?
  {}

  lemma FitsAll(members: seq<(string, Json)>)
    requires members != []
    ensures (forall k :: 0 <= k < |members| ==> Fits(members[k].0, members[k].1)) <==>
            Fits(members[0].0, members[0].1)
            && forall k :: 0 <= k < |members[1..]| ==> Fits(members[1..][k].0, members[1..][k].1)
  {
    hide Fits;
    assert forall k :: 0 <= k < |members[1..]| ==> members[1..][k] == members[k + 1];
    assert forall k :: 1 <= k < |members| ==> members[k] == members[1..][k - 1];
  }
}
