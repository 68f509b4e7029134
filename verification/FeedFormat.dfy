/**
 * The byte formats of the feed: the `[a,b,c` buffer that GET /feed closes with `]`, and the
 * JSON-lines backup file with the scanner that reads it at start-up.
 */
module FeedFormat {
  import opened FeedRecord
  import opened Json
  import opened Options
  import opened Text

  // ---- The buffer --------------------------------------------------------------------------

  function Join(entries: seq<string>): string {
    if entries == [] then ""
    else if |entries| == 1 then entries[0]
    else entries[0] + ("," + Join(entries[1..]))
  }

  function BuilderOf(entries: seq<string>): string {
    if entries == [] then "" else "[" + Join(entries)
  }

  /** The append that worker, overflowing Add, GetFeedBytes and recovery all perform. */
  function AppendEntry(builder: string, data: string): string {
    if |builder| == 0 then "[" + data else builder + "," + data
  }

  function FeedText(builder: string): string {
    if |builder| == 0 then "[]" else builder + "]"
  }

  lemma {:induction false} JoinAppend(entries: seq<string>, data: string)
    ensures Join(entries + [data]) == if entries == [] then data else Join(entries) + "," + data
    decreases entries
  {
    if entries == [] {
      assert [] + [data] == [data];
    } else {
      assert (entries + [data])[1..] == entries[1..] + [data];
      JoinAppend(entries[1..], data);
      if |entries| == 1 {
        assert entries[1..] == [];
      } else {
        var head, rest := entries[0], Join(entries[1..]);
        assert head + ("," + (rest + "," + data)) == (head + ("," + rest)) + "," + data;
      }
    }
  }

  /** Appending to the buffer is appending to the list it stands for. */
  lemma BuilderAppend(entries: seq<string>, data: string)
    ensures AppendEntry(BuilderOf(entries), data) == BuilderOf(entries + [data])
  {
    JoinAppend(entries, data);
    if entries != [] {
      assert "[" + Join(entries) + "," + data == "[" + (Join(entries) + "," + data);
    }
  }

  function Renders(recs: seq<FeedMessage>): (entries: seq<string>)
    ensures |entries| == |recs|
  {
    if recs == [] then [] else [Render(recs[0])] + Renders(recs[1..])
  }

  function ToJsons(recs: seq<FeedMessage>): (vs: seq<Json>)
    ensures |vs| == |recs|
  {
    if recs == [] then [] else [ToJson(recs[0])] + ToJsons(recs[1..])
  }

  predicate AllSafe(recs: seq<FeedMessage>) {
    forall i :: 0 <= i < |recs| ==> Safe(recs[i])
  }

  predicate AllReadable(recs: seq<FeedMessage>) {
    forall i :: 0 <= i < |recs| ==> Readable(recs[i])
  }

  /** The messages as a reader of their renderings sees them. */
  function AsReads(recs: seq<FeedMessage>): (seen: seq<FeedMessage>)
    ensures |seen| == |recs|
  {
    if recs == [] then [] else [AsRead(recs[0])] + AsReads(recs[1..])
  }

  /**
   * Wherever the entry stands it is the text of an object: it parses to v, up to its own end, when
   * `ok`, and to something else or nothing otherwise.
   */
  ghost predicate StandsFor(entry: string, v: Json, ok: bool) {
    forall s: string, i: nat :: At(s, i, entry) ==>
      && i < |s| && s[i] == '{'
      && (ok ==> ParseValue(s, i) == Good(v, i + |entry|))
      && (ParseValue(s, i).Good? && ParseValue(s, i).value == v ==> ok)
  }

  lemma RecordStandsFor(r: FeedMessage)
    ensures StandsFor(Render(r), ToJson(r), Safe(r))
  {
    hide AsRead, Safe, Render, ToJson, At, ParseValue;
    SafeIsUnchanged(r);
    forall s: string, i: nat | At(s, i, Render(r))
      ensures i < |s| && s[i] == '{'
              && (Safe(r) ==> ParseValue(s, i) == Good(ToJson(r), i + |Render(r)|))
              && (ParseValue(s, i).Good? && ParseValue(s, i).value == ToJson(r) ==> Safe(r))
    {
      RecordValue(s, i, r);
    }
  }

  lemma ReadableStandsFor(r: FeedMessage)
    requires Readable(r)
    ensures StandsFor(Render(r), ToJson(AsRead(r)), true)
  {
    hide AsRead, Safe, Render, ToJson, At, ParseValue;
    forall s: string, i: nat | At(s, i, Render(r))
      ensures i < |s| && s[i] == '{' && ParseValue(s, i) == Good(ToJson(AsRead(r)), i + |Render(r)|)
    {
      RecordValue(s, i, r);
    }
  }

  /** Where the parts of a joined list stand. */
  lemma JoinedParts(s: string, i: nat, entries: seq<string>) returns (e: nat)
    requires entries != [] && At(s, i, Join(entries) + "]")
    ensures e == i + |entries[0]| && At(s, i, entries[0]) && e < |s|
    ensures |entries| == 1 ==> s[e] == ']' && e == i + |Join(entries)|
    ensures |entries| > 1 ==> s[e] == ',' && At(s, e + 1, Join(entries[1..]) + "]")
                              && e + 1 + |Join(entries[1..])| == i + |Join(entries)|
  {
    e := i + |entries[0]|;
    if |entries| == 1 {
      AtSplit(s, i, entries[0], "]");
      AtIndex(s, e, "]", 0);
    } else {
      var head, rest := entries[0], Join(entries[1..]);
      assert (head + ("," + rest)) + "]" == head + ("," + (rest + "]"));
      AtSplit(s, i, head, "," + (rest + "]"));
      AtSplit(s, e, ",", rest + "]");
      AtIndex(s, e, ",", 0);
    }
  }

  lemma OneItem(s: string, i: nat, e: nat, v: Json)
    requires i <= |s| && ParseValue(s, i) == Good(v, e) && e < |s| && s[e] == ']'
    ensures ParseItems(s, i) == Good([v], e + 1)
  {
    NoSpace(s, e);
  }

  lemma ItemThenMore(s: string, i: nat, e: nat, v: Json)
    requires i <= |s| && ParseValue(s, i) == Good(v, e) && e + 1 < |s| && s[e] == ',' && s[e + 1] == '{'
    ensures var r := ParseItems(s, e + 1);
            ParseItems(s, i) == if r.Good? then Good([v] + r.value, r.next) else Bad
  {
    NoSpace(s, e);
    NoSpace(s, e + 1);
  }

  lemma ItemsCons(s: string, i: nat, e: nat, vs: seq<Json>, end: nat)
    requires vs != [] && i <= |s| && ParseValue(s, i) == Good(vs[0], e) && e + 1 < |s| && s[e] == ',' && s[e + 1] == '{'
    requires ParseItems(s, e + 1) == Good(vs[1..], end)
    ensures ParseItems(s, i) == Good(vs, end)
  {
    ItemThenMore(s, i, e, vs[0]);
    assert [vs[0]] + vs[1..] == vs;
  }

  lemma FirstItem(s: string, i: nat)
    requires i <= |s| && ParseItems(s, i).Good?
    ensures ParseValue(s, i).Good? && ParseItems(s, i).value != [] && ParseItems(s, i).value[0] == ParseValue(s, i).value
  {}

  ghost predicate AllStandFor(entries: seq<string>, vs: seq<Json>, oks: seq<bool>)
    decreases entries
  {
    && |entries| == |vs| == |oks|
    && (entries != [] ==> StandsFor(entries[0], vs[0], oks[0]) && AllStandFor(entries[1..], vs[1..], oks[1..]))
  }

  predicate AllTrue(oks: seq<bool>)
    decreases oks
  {
    oks == [] || (oks[0] && AllTrue(oks[1..]))
  }

  lemma FirstByte(s: string, i: nat, entries: seq<string>, v: Json, ok: bool)
    requires entries != [] && StandsFor(entries[0], v, ok) && At(s, i, Join(entries) + "]")
    ensures i < |s| && s[i] == '{'
  {
    var e := JoinedParts(s, i, entries);
  }

  /** The head of a joined list with more after it: where the rest starts. */
  lemma JoinedHead(s: string, i: nat, entries: seq<string>, vs: seq<Json>, oks: seq<bool>) returns (e: nat)
    requires |entries| > 1 && AllStandFor(entries, vs, oks) && At(s, i, Join(entries) + "]")
    ensures i <= |s| && e < |s| && At(s, e + 1, Join(entries[1..]) + "]")
    ensures e + 1 + |Join(entries[1..])| == i + |Join(entries)|
    ensures oks[0] ==> ParseValue(s, i) == Good(vs[0], e)
    ensures ParseValue(s, i).Good? && ParseValue(s, i).value == vs[0] ==> oks[0]
    ensures s[e] == ',' && e + 1 < |s| && s[e + 1] == '{'
  {
    e := JoinedParts(s, i, entries);
    assert StandsFor(entries[1..][0], vs[1..][0], oks[1..][0]);
    FirstByte(s, e + 1, entries[1..], vs[1], oks[1]);
  }

  lemma LastItem(s: string, i: nat, entries: seq<string>, vs: seq<Json>)
    requires |entries| == |vs| == 1 && StandsFor(entries[0], vs[0], true) && At(s, i, Join(entries) + "]")
    ensures i <= |s| && ParseItems(s, i) == Good(vs, i + |Join(entries)| + 1)
  {
    var e := JoinedParts(s, i, entries);
    OneItem(s, i, e, vs[0]);
    assert vs == [vs[0]];
  }

  lemma {:induction false} JoinedItems(s: string, i: nat, entries: seq<string>, vs: seq<Json>, oks: seq<bool>, end: nat)
    requires entries != [] && AllStandFor(entries, vs, oks) && AllTrue(oks)
    requires At(s, i, Join(entries) + "]") && end == i + |Join(entries)| + 1
    ensures i <= |s| && ParseItems(s, i) == Good(vs, end)
    decreases entries
  {
    hide StandsFor, ParseItems, Join;
    if |entries| == 1 {
      LastItem(s, i, entries, vs);
    } else {
      var e := JoinedHead(s, i, entries, vs, oks);
      JoinedItems(s, e + 1, entries[1..], vs[1..], oks[1..], end);
      ItemsCons(s, i, e, vs, end);
    }
  }

  lemma {:induction false} ParsedItemsAreTrue(s: string, i: nat, entries: seq<string>, vs: seq<Json>, oks: seq<bool>)
    requires entries != [] && AllStandFor(entries, vs, oks) && At(s, i, Join(entries) + "]")
    requires i <= |s| && ParseItems(s, i).Good? && ParseItems(s, i).value == vs
    ensures AllTrue(oks)
    decreases entries
  {
    FirstItem(s, i);
    if |entries| == 1 {
      var e := JoinedParts(s, i, entries);
    } else {
      var e := JoinedHead(s, i, entries, vs, oks);
      ItemThenMore(s, i, e, vs[0]);
      assert ParseItems(s, e + 1).value == vs[1..];
      ParsedItemsAreTrue(s, e + 1, entries[1..], vs[1..], oks[1..]);
    }
  }

  lemma ArrayValue(s: string)
    requires |s| > 1 && s[0] == '[' && s[1] == '{'
    ensures Parse(s) == var r := ParseItems(s, 1);
                        if r.Good? && SkipSpace(s, r.next) == |s| then Some(Arr(r.value)) else None
  {
    NoSpace(s, 0);
    NoSpace(s, 1);
  }

  lemma ArrayRoundTrip(entries: seq<string>, vs: seq<Json>, oks: seq<bool>)
    requires AllStandFor(entries, vs, oks)
    ensures Parse(FeedText(BuilderOf(entries))) == Some(Arr(vs)) <==> AllTrue(oks)
  {
    var s := FeedText(BuilderOf(entries));
    if entries == [] {
      assert s == "[]";
    } else {
      var body := Join(entries) + "]";
      assert s == "[" + body;
      AtWhole(s);
      AtSplit(s, 0, "[", body);
      FirstByte(s, 1, entries, vs[0], oks[0]);
      ArrayValue(s);
      if AllTrue(oks) {
        JoinedItems(s, 1, entries, vs, oks, |s|);
      }
      if Parse(s) == Some(Arr(vs)) {
        ParsedItemsAreTrue(s, 1, entries, vs, oks);
      }
    }
  }

  /**
   * The feed round trip: the text of GET /feed is a JSON array of exactly the buffered records, in
   * order and with their original strings, if and only if every record is safe.
   */
  lemma FeedRoundTrip(recs: seq<FeedMessage>)
    ensures Parse(FeedText(BuilderOf(Renders(recs)))) == Some(Arr(ToJsons(recs))) <==> AllSafe(recs)
  {
    RecordsStandFor(recs);
    SafesAllTrue(recs);
    ArrayRoundTrip(Renders(recs), ToJsons(recs), Safes(recs));
  }

  /** With readable records the feed is always an array: of the records as a reader sees them. */
  lemma FeedAsRead(recs: seq<FeedMessage>)
    requires AllReadable(recs)
    ensures Parse(FeedText(BuilderOf(Renders(recs)))) == Some(Arr(ToJsons(AsReads(recs))))
  {
    ReadablesStandFor(recs);
    ArrayRoundTrip(Renders(recs), ToJsons(AsReads(recs)), Trues(|recs|));
  }

  function Trues(n: nat): (oks: seq<bool>)
    ensures |oks| == n && AllTrue(oks)
  {
    if n == 0 then [] else [true] + Trues(n - 1)
  }

  lemma {:induction false} ReadablesStandFor(recs: seq<FeedMessage>)
    requires AllReadable(recs)
    ensures AllStandFor(Renders(recs), ToJsons(AsReads(recs)), Trues(|recs|))
    decreases recs
  {
    if recs != [] {
      hide StandsFor, Render, ToJson, AsRead, Readable;
      AllReadableCons(recs);
      ReadableStandsFor(recs[0]);
      ReadablesStandFor(recs[1..]);
      StandForCons(Render(recs[0]), ToJson(AsRead(recs[0])), true, Renders(recs[1..]), ToJsons(AsReads(recs[1..])),
                   Trues(|recs| - 1));
      assert AsReads(recs)[1..] == AsReads(recs[1..]);
    }
  }

  lemma AllReadableCons(recs: seq<FeedMessage>)
    requires recs != [] && AllReadable(recs)
    ensures Readable(recs[0]) && AllReadable(recs[1..])
  {
    forall i | 0 <= i < |recs[1..]| ensures Readable(recs[1..][i]) {
      assert recs[1..][i] == recs[i + 1];
    }
  }

  /** Safe records are readable, and a reader sees them as they are. */
  lemma {:induction false} SafeAsRead(recs: seq<FeedMessage>)
    requires AllSafe(recs)
    ensures AllReadable(recs) && AsReads(recs) == recs
    decreases recs
  {
    if recs != [] {
      AllSafeCons(recs);
      SafeIsUnchanged(recs[0]);
      SafeAsRead(recs[1..]);
      assert [recs[0]] + recs[1..] == recs;
      forall i | 0 <= i < |recs| ensures Readable(recs[i]) {
        if i > 0 { assert recs[i] == recs[1..][i - 1]; }
      }
    }
  }

  function Safes(recs: seq<FeedMessage>): (oks: seq<bool>)
    ensures |oks| == |recs|
  {
    if recs == [] then [] else [Safe(recs[0])] + Safes(recs[1..])
  }

  lemma {:induction false} RecordsStandFor(recs: seq<FeedMessage>)
    ensures AllStandFor(Renders(recs), ToJsons(recs), Safes(recs))
    decreases recs
  {
    if recs != [] {
      RecordStandsFor(recs[0]);
      RecordsStandFor(recs[1..]);
      StandForCons(Render(recs[0]), ToJson(recs[0]), Safe(recs[0]), Renders(recs[1..]), ToJsons(recs[1..]), Safes(recs[1..]));
    }
  }

  lemma StandForCons(entry: string, v: Json, ok: bool, entries: seq<string>, vs: seq<Json>, oks: seq<bool>)
    requires StandsFor(entry, v, ok) && AllStandFor(entries, vs, oks)
    ensures AllStandFor([entry] + entries, [v] + vs, [ok] + oks)
  {
    assert ([entry] + entries)[1..] == entries && ([v] + vs)[1..] == vs && ([ok] + oks)[1..] == oks;
  }

  lemma {:induction false} SafesAllTrue(recs: seq<FeedMessage>)
    ensures AllTrue(Safes(recs)) <==> AllSafe(recs)
    decreases recs
  {
    if recs != [] {
      assert Safes(recs)[1..] == Safes(recs[1..]);
      SafesAllTrue(recs[1..]);
      AllSafeCons(recs);
    }
  }

  lemma AllSafeCons(recs: seq<FeedMessage>)
    requires recs != []
    ensures AllSafe(recs) <==> Safe(recs[0]) && AllSafe(recs[1..])
  {
    if Safe(recs[0]) && AllSafe(recs[1..]) {
      forall i | 0 <= i < |recs| ensures Safe(recs[i]) {
        if i > 0 { assert recs[i] == recs[1..][i - 1]; }
      }
    }
    if AllSafe(recs) {
      forall i | 0 <= i < |recs[1..]| ensures Safe(recs[1..][i]) {
        assert recs[1..][i] == recs[i + 1];
      }
    }
  }

  // ---- The backup file ---------------------------------------------------------------------

  /** bufio.MaxScanTokenSize: a line that fills the scanner's buffer ends the scan. */
  const MAX_TOKEN := 65536

  function LineEnd(file: string): (e: nat)
    ensures e <= |file|
  {
    if file == "" || file[0] == '\n' then 0 else 1 + LineEnd(file[1..])
  }

  function DropCR(line: string): string {
    if line != "" && line[|line| - 1] == '\r' then line[..|line| - 1] else line
  }

  /** The lines that bufio.Scanner delivers; the last one needs no newline. */
  function Scan(file: string): seq<string>
    decreases |file|
  {
    if file == "" then []
    else
      var e := LineEnd(file);
      if e >= MAX_TOKEN then []
      else if e == |file| then [DropCR(file)]
      else [DropCR(file[..e])] + Scan(file[e + 1..])
  }

  /** The identity under which recovery recognises a repeated message. */
  function Key(m: FeedMessage): string {
    if m.id == "" then m.clientName + "_" + m.msg + "_" + IntText(m.timestamp) else m.id
  }

  /** The lines recovery keeps: readable ones, each key once. */
  function RecoverLines(lines: seq<string>, seen: set<string>): seq<string>
    decreases lines
  {
    if lines == [] then []
    else
      match if lines[0] == "" then None else Unmarshal(lines[0])
      case None => RecoverLines(lines[1..], seen)
      case Some(m) =>
        if Key(m) in seen then RecoverLines(lines[1..], seen)
        else [lines[0]] + RecoverLines(lines[1..], seen + {Key(m)})
  }

  /** The file that a sole writer of these entries leaves behind. */
  function Journal(entries: seq<string>): string {
    if entries == [] then "" else entries[0] + ("\n" + Journal(entries[1..]))
  }

  lemma {:induction false} JournalAppend(entries: seq<string>, data: string)
    ensures Journal(entries + [data]) == Journal(entries) + (data + "\n")
    decreases entries
  {
    if entries == [] {
      assert [] + [data] == [data];
      assert [data][1..] == [];
    } else {
      assert (entries + [data])[1..] == entries[1..] + [data];
      JournalAppend(entries[1..], data);
      var head, rest := entries[0], Journal(entries[1..]);
      assert head + ("\n" + (rest + (data + "\n"))) == (head + ("\n" + rest)) + (data + "\n");
    }
  }
}
