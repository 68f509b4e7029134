/**
 * Start-up after a crash: what the recovery loop reads from a backup file that the worker alone
 * has written and that ends anywhere, even inside a record.
 */
module Recovery {
  import opened FeedFormat
  import opened FeedRecord
  import opened GoQuote
  import opened Json
  import opened Options
  import opened RawText
  import opened Runes
  import opened Text

  // ---- Rendered records are single lines -----------------------------------------------------

  predicate Printable(s: string) {
    forall k :: 0 <= k < |s| ==> s[k] >= ' '
  }

  lemma PrintableConcat(a: string, b: string)
    requires Printable(a) && Printable(b)
    ensures Printable(a + b)
  {}

  lemma {:induction false} QuotePrintable(text: string)
    ensures Printable(QuoteBody(text))
    decreases text
  {
    if text != "" {
      QuotePrintable(text[Width(text)..]);
      assert Printable(QuoteHead(text));
    }
  }

  lemma MemberPrintable(key: string, body: string, more: string)
    requires Printable(key) && Printable(body) && Printable(more)
    ensures Printable(StringMember(key, body, more))
  {
    PrintableConcat("\"" + key, "\":\"");
    PrintableConcat(body + "\"", "," + more);
    PrintableConcat("\"" + key + "\":\"", (body + "\"") + ("," + more));
  }

  lemma NumberPrintable(key: string, digits: string)
    requires Printable(key) && IsDecimal(digits)
    ensures Printable(NumberMember(key, digits))
  {
    DecimalIsNumber(digits);
    PrintableConcat("\"" + key, "\":");
    PrintableConcat("\"" + key + "\":", digits + "}");
  }

  lemma TimestampPrintable(r: FeedMessage)
    ensures Printable(TimestampMember(r))
  {
    IntTextRoundTrip(r.timestamp);
    NumberPrintable("timestamp", IntText(r.timestamp));
  }

  /** No byte of a rendered record is a control character, so it is one line and ends in no CR. */
  lemma RenderPrintable(r: FeedMessage)
    requires Printable(r.id)
    ensures Printable(Render(r))
  {
    QuotePrintable(r.clientName);
    QuotePrintable(r.msg);
    TimestampPrintable(r);
    MemberPrintable("msg", QuoteBody(r.msg), TimestampMember(r));
    MemberPrintable("client-name", QuoteBody(r.clientName), MsgMembers(r));
    MemberPrintable("id", r.id, NameMembers(r));
    RenderShape(r);
    PrintableConcat("{", StringMember("id", r.id, NameMembers(r)));
  }

  lemma {:induction false} LineEndPrintable(a: string, b: string)
    requires Printable(a) && (b == "" || b[0] == '\n')
    ensures LineEnd(a + b) == |a|
    decreases a
  {
    if a == "" {
      assert a + b == b;
    } else {
      assert (a + b)[1..] == a[1..] + b;
      LineEndPrintable(a[1..], b);
    }
  }

  /** A cut inside (or at the end of) the first line: the scanner delivers what is left of it. */
  lemma ScanTorn(line: string)
    requires Printable(line) && line != ""
    ensures Scan(line) == if |line| >= MAX_TOKEN then [] else [line]
  {
    LineEndPrintable(line, "");
    assert line + "" == line;
  }

  lemma ScanLine(line: string, rest: string)
    requires Printable(line) && line != ""
    ensures Scan(line + ("\n" + rest)) == if |line| >= MAX_TOKEN then [] else [line] + Scan(rest)
  {
    var file := line + ("\n" + rest);
    LineEndPrintable(line, "\n" + rest);
    assert file[..|line|] == line && file[|line| + 1..] == rest;
  }

  // ---- The specification -----------------------------------------------------------------------

  /** The key under which recovery knows a rendered message. */
  function ReadKey(r: FeedMessage): string {
    Key(AsRead(r))
  }

  /** The messages with a key not met before, in order. */
  function FirstPerKey(recs: seq<FeedMessage>, seen: set<string>): seq<FeedMessage>
    decreases recs
  {
    if recs == [] then []
    else if ReadKey(recs[0]) in seen then FirstPerKey(recs[1..], seen)
    else [recs[0]] + FirstPerKey(recs[1..], seen + {ReadKey(recs[0])})
  }

  predicate AllPlain(recs: seq<FeedMessage>) {
    forall i :: 0 <= i < |recs| ==> Plain(recs[i].id)
  }

  lemma AllPlainCons(recs: seq<FeedMessage>)
    requires recs != [] && AllPlain(recs)
    ensures Plain(recs[0].id) && AllPlain(recs[1..])
  {
    forall i | 0 <= i < |recs[1..]| ensures Plain(recs[1..][i].id) {
      assert recs[1..][i] == recs[i + 1];
    }
  }

  /** The messages whose renderings are JSON objects. */
  function Readables(recs: seq<FeedMessage>): seq<FeedMessage>
    decreases recs
  {
    if recs == [] then []
    else if Readable(recs[0]) then [recs[0]] + Readables(recs[1..])
    else Readables(recs[1..])
  }

  /** What recovery makes of the messages whose lines it scans: the readable ones, each key once. */
  function Restored(recs: seq<FeedMessage>, seen: set<string>): seq<FeedMessage> {
    FirstPerKey(Readables(recs), seen)
  }

  /** How many leading lines lie, apart from the newline, within the first n bytes of their journal. */
  function Whole(lines: seq<string>, n: nat): (k: nat)
    ensures k <= |lines|
    decreases lines
  {
    if lines == [] || |lines[0]| > n || |lines[0]| >= MAX_TOKEN then 0
    else 1 + Whole(lines[1..], if n == |lines[0]| then 0 else n - |lines[0]| - 1)
  }

  /** Where line i, without its newline, ends in the journal. */
  function EndOf(lines: seq<string>, i: nat): nat
    requires i < |lines|
    decreases lines
  {
    if i == 0 then |lines[0]| else |lines[0]| + 1 + EndOf(lines[1..], i - 1)
  }

  /** No line up to the i-th one is over-long. */
  predicate ShortLines(lines: seq<string>, i: nat)
    requires i < |lines|
    decreases lines
  {
    |lines[0]| < MAX_TOKEN && (i == 0 || ShortLines(lines[1..], i - 1))
  }

  lemma RenderNonEmpty(r: FeedMessage)
    ensures Render(r) != "" && Render(r)[0] == '{'
  {
    RenderShape(r);
  }

  lemma {:induction false} RendersNonEmpty(recs: seq<FeedMessage>)
    ensures "" !in Renders(recs)
    decreases recs
  {
    if recs != [] {
      RenderNonEmpty(recs[0]);
      RendersNonEmpty(recs[1..]);
    }
  }

  /** `Whole` counts exactly the lines that end within the cut and follow no over-long line. */
  lemma {:induction false} WholeMeaning(lines: seq<string>, n: nat, i: nat)
    requires i < |lines| && "" !in lines
    ensures i < Whole(lines, n) <==> EndOf(lines, i) <= n && ShortLines(lines, i)
    decreases lines
  {
    if i > 0 {
      assert lines[1..][0] == lines[1] && lines[1] != "";
      if |lines[0]| <= n && |lines[0]| < MAX_TOKEN {
        WholeMeaning(lines[1..], if n == |lines[0]| then 0 else n - |lines[0]| - 1, i - 1);
      }
    }
  }

  function Keys(recs: seq<FeedMessage>): set<string> {
    set i | 0 <= i < |recs| :: ReadKey(recs[i])
  }

  lemma KeysCons(recs: seq<FeedMessage>)
    requires recs != []
    ensures Keys(recs) == {ReadKey(recs[0])} + Keys(recs[1..])
  {
    forall k | k in Keys(recs) ensures k in {ReadKey(recs[0])} + Keys(recs[1..]) {
      var i :| 0 <= i < |recs| && ReadKey(recs[i]) == k;
      if i > 0 { assert recs[1..][i - 1] == recs[i]; }
    }
    forall k | k in Keys(recs[1..]) ensures k in Keys(recs) {
      var i :| 0 <= i < |recs[1..]| && ReadKey(recs[1..][i]) == k;
      assert recs[i + 1] == recs[1..][i];
    }
  }

  /**
   * What `FirstPerKey` selects, seen from the end of the list: one more message is kept exactly when
   * no earlier one has its key.
   */
  lemma {:induction false} FirstPerKeySnoc(recs: seq<FeedMessage>, r: FeedMessage, seen: set<string>)
    ensures FirstPerKey(recs + [r], seen) ==
            FirstPerKey(recs, seen) + if ReadKey(r) in seen + Keys(recs) then [] else [r]
    decreases recs
  {
    hide ReadKey;
    if recs == [] {
      assert [] + [r] == [r] && [r][1..] == [];
    } else {
      assert (recs + [r])[1..] == recs[1..] + [r];
      KeysCons(recs);
      if ReadKey(recs[0]) in seen {
        FirstPerKeySnoc(recs[1..], r, seen);
        assert seen + Keys(recs) == seen + Keys(recs[1..]);
      } else {
        FirstPerKeySnoc(recs[1..], r, seen + {ReadKey(recs[0])});
        assert seen + Keys(recs) == seen + {ReadKey(recs[0])} + Keys(recs[1..]);
      }
    }
  }

  // ---- Recovery ----------------------------------------------------------------------------------

  lemma RecoverCons(r: FeedMessage, lines: seq<string>, seen: set<string>)
    requires Plain(r.id)
    ensures RecoverLines([Render(r)] + lines, seen) ==
            if !Readable(r) || ReadKey(r) in seen then RecoverLines(lines, seen)
            else [Render(r)] + RecoverLines(lines, seen + {ReadKey(r)})
  {
    assert ([Render(r)] + lines)[1..] == lines;
    RenderNonEmpty(r);
    if Readable(r) {
      UnmarshalRendered(r);
    } else {
      UnmarshalTorn(r, |Render(r)|);
      assert Render(r)[..|Render(r)|] == Render(r);
    }
  }

  lemma RecoverUnreadable(line: string, seen: set<string>)
    requires Unmarshal(line).None?
    ensures RecoverLines([line], seen) == []
  {
    assert [line][1..] == [];
  }

  lemma RestoredCons(recs: seq<FeedMessage>, seen: set<string>)
    requires recs != []
    ensures Renders(Restored(recs, seen)) ==
            if !Readable(recs[0]) || ReadKey(recs[0]) in seen then Renders(Restored(recs[1..], seen))
            else [Render(recs[0])] + Renders(Restored(recs[1..], seen + {ReadKey(recs[0])}))
  {
    var more := Readables(recs[1..]);
    if Readable(recs[0]) {
      assert Readables(recs)[0] == recs[0] && Readables(recs)[1..] == more;
      if ReadKey(recs[0]) !in seen {
        RendersCons(recs[0], FirstPerKey(more, seen + {ReadKey(recs[0])}));
      }
    }
  }

  lemma RendersCons(r: FeedMessage, recs: seq<FeedMessage>)
    ensures Renders([r] + recs) == [Render(r)] + Renders(recs)
  {
    assert ([r] + recs)[1..] == recs;
  }

  /** What the recovery loop finds in the first n bytes of the journal of recs. */
  function RecoveredFrom(recs: seq<FeedMessage>, n: nat, seen: set<string>): seq<string>
    requires n <= |Journal(Renders(recs))|
  {
    RecoverLines(Scan(Journal(Renders(recs))[..n]), seen)
  }

  /** The cut ends in the first record: nothing is recovered. */
  lemma RecoverTorn(r: FeedMessage, n: nat, seen: set<string>)
    requires Plain(r.id) && n < |Render(r)|
    ensures RecoverLines(Scan(Render(r)[..n]), seen) == []
  {
    if n > 0 {
      RenderPrintable(r);
      ScanTorn(Render(r)[..n]);
      UnmarshalTorn(r, n);
      if n < MAX_TOKEN {
        RecoverUnreadable(Render(r)[..n], seen);
      }
    }
  }

  /** The cut keeps the first record, with or without its newline, and `rest` of what follows. */
  lemma RecoverFirst(r: FeedMessage, rest: string, newline: bool, seen: set<string>)
    requires Plain(r.id) && (!newline ==> rest == "")
    ensures RecoverLines(Scan(Render(r) + if newline then "\n" + rest else ""), seen) ==
            if |Render(r)| >= MAX_TOKEN then []
            else if !Readable(r) || ReadKey(r) in seen then RecoverLines(Scan(rest), seen)
            else [Render(r)] + RecoverLines(Scan(rest), seen + {ReadKey(r)})
  {
    RenderPrintable(r);
    RenderNonEmpty(r);
    if newline {
      ScanLine(Render(r), rest);
    } else {
      assert Render(r) + "" == Render(r);
      ScanTorn(Render(r));
      assert Scan(rest) == [] && [Render(r)] + Scan(rest) == [Render(r)];
    }
    RecoverCons(r, Scan(rest), seen);
  }

  lemma CutJournal(journal: string, head: string, rest: string, n: nat, m: nat)
    requires journal == head + ("\n" + rest) && |head| <= n <= |journal|
    requires m == if n == |head| then 0 else n - |head| - 1
    ensures m <= |rest| && (n <= |head| ==> rest[..m] == "")
    ensures journal[..n] == head + if n > |head| then "\n" + rest[..m] else ""
  {}

  lemma TornInFirst(recs: seq<FeedMessage>, n: nat, seen: set<string>)
    requires recs != [] && Plain(recs[0].id) && n < |Render(recs[0])|
    ensures n <= |Journal(Renders(recs))| && RecoveredFrom(recs, n, seen) == []
    ensures Whole(Renders(recs), n) == 0
  {
    hide Render, Unmarshal, RecoverLines, Scan;
    JournalCons(recs);
    assert Journal(Renders(recs))[..n] == Render(recs[0])[..n];
    RecoverTorn(recs[0], n, seen);
  }

  /** The cut keeps the first record and m bytes of the journal of the others. */
  lemma TornAfterFirst(recs: seq<FeedMessage>, n: nat, m: nat, seen: set<string>)
    requires recs != [] && Plain(recs[0].id) && |Render(recs[0])| <= n <= |Journal(Renders(recs))|
    requires m == if n == |Render(recs[0])| then 0 else n - |Render(recs[0])| - 1
    ensures m <= |Journal(Renders(recs[1..]))|
    ensures RecoveredFrom(recs, n, seen) ==
            if |Render(recs[0])| >= MAX_TOKEN then []
            else if !Readable(recs[0]) || ReadKey(recs[0]) in seen then RecoveredFrom(recs[1..], m, seen)
            else [Render(recs[0])] + RecoveredFrom(recs[1..], m, seen + {ReadKey(recs[0])})
  {
    var r, rest := recs[0], Journal(Renders(recs[1..]));
    JournalCons(recs);
    CutJournal(Journal(Renders(recs)), Render(r), rest, n, m);
    RecoverFirst(r, rest[..m], n > |Render(r)|, seen);
  }

  /**
   * Crash recovery from a torn file: the journal of records with plain ids, cut at any byte, is
   * recovered to exactly the readable ones of those whose object bytes lie wholly in the cut (and
   * follow no over-long line), each key once, in order, byte for byte.
   */
  lemma {:induction false} TornRecoverySeen(recs: seq<FeedMessage>, n: nat, seen: set<string>)
    requires AllPlain(recs) && n <= |Journal(Renders(recs))|
    ensures RecoveredFrom(recs, n, seen) == Renders(Restored(recs[..Whole(Renders(recs), n)], seen))
    decreases recs
  {
    if recs == [] {
      assert Journal(Renders(recs))[..n] == "";
    } else {
      AllPlainCons(recs);
      var len := |Render(recs[0])|;
      if n < len {
        TornInFirst(recs, n, seen);
      } else {
        var m := if n == len then 0 else n - len - 1;
        TornAfterFirst(recs, n, m, seen);
        if len < MAX_TOKEN {
          WholeCons(recs, n, m);
          RestoredCons(recs[..Whole(Renders(recs), n)], seen);
          var skip := !Readable(recs[0]) || ReadKey(recs[0]) in seen;
          TornRecoverySeen(recs[1..], m, if skip then seen else seen + {ReadKey(recs[0])});
        }
      }
    }
  }

  lemma JournalCons(recs: seq<FeedMessage>)
    requires recs != []
    ensures Journal(Renders(recs)) == Render(recs[0]) + ("\n" + Journal(Renders(recs[1..])))
  {
    assert Renders(recs)[1..] == Renders(recs[1..]);
  }

  lemma WholeCons(recs: seq<FeedMessage>, n: nat, m: nat)
    requires recs != [] && |Render(recs[0])| <= n && |Render(recs[0])| < MAX_TOKEN
    requires m == if n == |Render(recs[0])| then 0 else n - |Render(recs[0])| - 1
    ensures Whole(Renders(recs), n) == 1 + Whole(Renders(recs[1..]), m)
    ensures recs[..Whole(Renders(recs), n)][0] == recs[0]
    ensures recs[..Whole(Renders(recs), n)][1..] == recs[1..][..Whole(Renders(recs[1..]), m)]
  {
    hide Render;
    assert Renders(recs)[1..] == Renders(recs[1..]);
  }

  /** The same for start-up itself, where nothing has been seen and the file is any prefix of the journal. */
  lemma TornRecovery(recs: seq<FeedMessage>, file: string)
    requires AllPlain(recs) && file <= Journal(Renders(recs))
    ensures RecoverLines(Scan(file), {}) == Renders(Restored(recs[..Whole(Renders(recs), |file|)], {}))
  {
    hide RecoverLines, Restored, Whole, Journal, Renders, Scan;
    PrefixIs(file, Journal(Renders(recs)));
    TornRecoverySeen(recs, |file|, {});
  }

  lemma PrefixIs(a: string, b: string)
    requires a <= b
    ensures b[..|a|] == a
  {}

  /** A single ill-formed byte is no UTF-8, and is repaired like any other. */
  lemma OneBadByte(c: char)
    requires 0xF8 <= c as int
    ensures Plain([c]) && !WellFormed([c]) && Repair([c]) == REPLACEMENT
  {
    assert Width([c]) == 1 && [c][1..] == "";
  }

  /** "Each message once" fails for ids that are not UTF-8: two different ones have one key, and the second is lost. */
  lemma IllFormedIdsMerge()
    ensures var a := FeedMessage("\U{FF}", "n", "m", 0);
            var b := FeedMessage("\U{FE}", "n", "m", 0);
            && Readable(a) && Readable(b) && !Safe(a) && !Safe(b) && Key(a) != Key(b)
            && RecoverLines([Render(a), Render(b)], {}) == [Render(a)]
  {
    var a := FeedMessage("\U{FF}", "n", "m", 0);
    var b := FeedMessage("\U{FE}", "n", "m", 0);
    OneBadByte('\U{FF}');
    OneBadByte('\U{FE}');
    assert SafeText("n") && SafeText("m");
    assert ['\U{FF}'] == "\U{FF}" && ['\U{FE}'] == "\U{FE}" && "\U{FF}"[0] != "\U{FE}"[0];
    assert [Render(a), Render(b)] == [Render(a)] + [Render(b)] && [Render(b)] == [Render(b)] + [];
    RecoverCons(a, [Render(b)], {});
    RecoverCons(b, [], {ReadKey(a)});
  }

  /** "All messages are restored" fails for an accepted text with U+0007 too, although its line is wholly in the file. */
  lemma BellIsLost()
    ensures var r := FeedMessage("i", "n", "\U{7}", 0);
            && Plain(r.id) && !Readable(r) && RecoverLines([Render(r)], {}) == []
  {
    var r := FeedMessage("i", "n", "\U{7}", 0);
    assert Width("\U{7}") == 1 && !SafeText("\U{7}");
    assert [Render(r)] == [Render(r)] + [];
    RecoverCons(r, [], {});
  }

  // ---- What is restored, in ids ----------------------------------------------------------------------

  /**
   * Recovery takes the two messages for one: their ids, as read, are equal; or both are empty, and
   * name, text and time, joined by underscores, are; or one is empty and the other is that joint text.
   */
  predicate Merges(a: FeedMessage, b: FeedMessage) {
    var x, y := Repair(a.id), Repair(b.id);
    if x != "" && y != "" then x == y
    else if x != "" then x == b.clientName + "_" + b.msg + "_" + IntText(b.timestamp)
    else if y != "" then y == a.clientName + "_" + a.msg + "_" + IntText(a.timestamp)
    else a.clientName + "_" + a.msg + "_" + IntText(a.timestamp) == b.clientName + "_" + b.msg + "_" + IntText(b.timestamp)
  }

  lemma MergesMeaning(a: FeedMessage, b: FeedMessage)
    ensures Merges(a, b) <==> ReadKey(a) == ReadKey(b)
  {}

  lemma {:induction false} ReadablesSnoc(recs: seq<FeedMessage>, r: FeedMessage)
    ensures Readables(recs + [r]) == Readables(recs) + if Readable(r) then [r] else []
    decreases recs
  {
    if recs == [] {
      assert [] + [r] == [r] && [r][1..] == [];
    } else {
      assert (recs + [r])[1..] == recs[1..] + [r];
      ReadablesSnoc(recs[1..], r);
    }
  }

  /** The message at place i is readable, and no readable one before it merges with it. */
  predicate IsRestored(recs: seq<FeedMessage>, i: nat)
    requires i < |recs|
  {
    Readable(recs[i]) && forall j :: 0 <= j < i && Readable(recs[j]) ==> !Merges(recs[j], recs[i])
  }

  lemma {:induction false} ReadablesHold(recs: seq<FeedMessage>, m: FeedMessage)
    ensures m in Readables(recs) <==> exists j :: 0 <= j < |recs| && recs[j] == m && Readable(m)
    decreases recs
  {
    if recs != [] {
      ReadablesHold(recs[1..], m);
      if j :| 0 <= j < |recs| && recs[j] == m && Readable(m) {
        assert j > 0 ==> recs[1..][j - 1] == m;
      }
      if j :| 0 <= j < |recs[1..]| && recs[1..][j] == m && Readable(m) {
        assert recs[j + 1] == m;
      }
    }
  }

  lemma KnownKey(recs: seq<FeedMessage>, r: FeedMessage)
    ensures ReadKey(r) in Keys(Readables(recs)) <==> exists j :: 0 <= j < |recs| && Readable(recs[j]) && Merges(recs[j], r)
  {
    hide Readable, Merges, ReadKey;
    if ReadKey(r) in Keys(Readables(recs)) {
      var i :| 0 <= i < |Readables(recs)| && ReadKey(Readables(recs)[i]) == ReadKey(r);
      var m := Readables(recs)[i];
      ReadablesHold(recs, m);
      var j :| 0 <= j < |recs| && recs[j] == m && Readable(m);
      MergesMeaning(recs[j], r);
    }
    if j :| 0 <= j < |recs| && Readable(recs[j]) && Merges(recs[j], r) {
      MergesMeaning(recs[j], r);
      ReadablesHold(recs, recs[j]);
      var i :| 0 <= i < |Readables(recs)| && Readables(recs)[i] == recs[j];
    }
  }

  /**
   * The restored messages stand in the scanned list at the places `at`, in order; and a place is among
   * them exactly when its message is readable and merges with no readable one before it.
   */
  lemma {:induction false} RestoredMeaning(recs: seq<FeedMessage>) returns (at: seq<nat>)
    ensures |at| == |Restored(recs, {})| && forall k, m :: 0 <= k < m < |at| ==> at[k] < at[m]
    ensures forall k :: 0 <= k < |at| ==> at[k] < |recs| && Restored(recs, {})[k] == recs[at[k]]
    ensures forall i :: 0 <= i < |recs| ==> (i in at <==> IsRestored(recs, i))
    decreases recs
  {
    at := [];
    if recs != [] {
      var n := |recs| - 1;
      var init, r := recs[..n], recs[n];
      assert recs == init + [r];
      at := RestoredMeaning(init);
      var before := at;
      ReadablesSnoc(init, r);
      FirstPerKeySnoc(Readables(init), r, {});
      KnownKey(init, r);
      assert Readables(init) + [] == Readables(init);
      if IsRestored(recs, n) {
        at := at + [n];
      }
      RestoredPlaces(recs, init, before, at);
    }
  }

  lemma RestoredPlaces(recs: seq<FeedMessage>, init: seq<FeedMessage>, before: seq<nat>, at: seq<nat>)
    requires |recs| == |init| + 1 && recs[..|init|] == init
    requires forall k :: 0 <= k < |before| ==> before[k] < |init|
    requires forall i :: 0 <= i < |init| ==> (i in before <==> IsRestored(init, i))
    requires at == before + if IsRestored(recs, |init|) then [|init|] else []
    ensures forall i :: 0 <= i < |recs| ==> (i in at <==> IsRestored(recs, i))
  {
    hide Readable, Merges;
    assert forall i :: 0 <= i < |init| ==> recs[i] == init[i];
    forall i | 0 <= i < |recs| ensures i in at <==> IsRestored(recs, i) {
      if i < |init| {
        assert IsRestored(recs, i) <==> IsRestored(init, i);
      }
    }
  }

  /**
   * With ids that are not empty: no two restored messages have the same id as read, and a readable one
   * is restored exactly when no readable one before it has its id.
   */
  lemma RestoredById(recs: seq<FeedMessage>) returns (at: seq<nat>)
    requires forall i :: 0 <= i < |recs| ==> Repair(recs[i].id) != ""
    ensures |at| == |Restored(recs, {})|
    ensures forall k :: 0 <= k < |at| ==> at[k] < |recs| && Restored(recs, {})[k] == recs[at[k]]
    ensures forall k, m :: 0 <= k < m < |at| ==> at[k] < at[m] && Repair(recs[at[k]].id) != Repair(recs[at[m]].id)
    ensures forall i :: 0 <= i < |recs| ==>
              (i in at <==> Readable(recs[i])
                            && forall j :: 0 <= j < i && Readable(recs[j]) ==> Repair(recs[j].id) != Repair(recs[i].id))
  {
    at := RestoredMeaning(recs);
    hide Readable, Restored, Repair;
    forall k, m | 0 <= k < m < |at| ensures Repair(recs[at[k]].id) != Repair(recs[at[m]].id) {
      assert at[k] in at && at[m] in at;
      assert IsRestored(recs, at[k]) && IsRestored(recs, at[m]);
    }
  }

  lemma OneSafe(c: char)
    requires ' ' <= c < '\U{7F}'
    ensures SafeText([c])
  {
    assert Width([c]) == 1 && [c][1..] == "";
  }

  lemma SpelledId(id: string)
    requires id == "n_m_0"
    ensures Plain(id) && Repair(id) == id
  {
    assert forall k :: 0 <= k < |id| ==> RawChar(id[k]) && id[k] as int < 0x80;
    AsciiIsWellFormed(id);
    RepairIdle(id);
  }

  /** The example's messages are readable, and the id of one spells name, text and time of the other. */
  lemma EmptyIdExample(a: FeedMessage, b: FeedMessage)
    requires a == FeedMessage("n_m_0", "x", "y", 5) && b == FeedMessage("", "n", "m", 0)
    ensures Readable(a) && Readable(b) && Merges(a, b)
  {
    hide SafeText, Repair, Plain;
    OneSafe('x');
    OneSafe('y');
    OneSafe('n');
    OneSafe('m');
    assert "x" == ['x'] && "y" == ['y'] && "n" == ['n'] && "m" == ['m'];
    SpelledId(a.id);
    assert IntText(0) == "0" && "n" + "_" + "m" + "_" + "0" == "n_m_0";
    EmptyId();
  }

  lemma EmptyId()
    ensures Plain("") && Repair("") == ""
  {}

  /** A message without an id is taken for one whose id spells its name, text and time. */
  lemma EmptyIdMerges()
    ensures var a := FeedMessage("n_m_0", "x", "y", 5);
            var b := FeedMessage("", "n", "m", 0);
            Readable(a) && Readable(b) && RecoverLines([Render(a), Render(b)], {}) == [Render(a)]
  {
    var a := FeedMessage("n_m_0", "x", "y", 5);
    var b := FeedMessage("", "n", "m", 0);
    EmptyIdExample(a, b);
    TwoMerge(a, b);
  }

  lemma TwoMerge(a: FeedMessage, b: FeedMessage)
    requires Readable(a) && Readable(b) && Merges(a, b)
    ensures RecoverLines([Render(a), Render(b)], {}) == [Render(a)]
  {
    hide Render, Repair;
    MergesMeaning(a, b);
    assert [Render(a), Render(b)] == [Render(a)] + [Render(b)] && [Render(b)] == [Render(b)] + [];
    RecoverCons(a, [Render(b)], {});
    RecoverCons(b, [], {ReadKey(a)});
  }

  lemma {:induction false} EndOfMeaning(lines: seq<string>, i: nat)
    requires i < |lines|
    ensures |Journal(lines[..i + 1])| == EndOf(lines, i) + 1
    decreases lines
  {
    if i == 0 {
      assert lines[..1] == [lines[0]] && [lines[0]][1..] == [];
    } else {
      assert lines[..i + 1][1..] == lines[1..][..i];
      EndOfMeaning(lines[1..], i - 1);
    }
  }

  /**
   * Start-up on a torn journal, record by record: the recovered lines are the renderings of the
   * records at the places `at`, in order, and a record is among them exactly when it ends within the
   * file and behind no over-long line, is readable, and merges with no readable record before it.
   */
  lemma RecoveredPlaces(recs: seq<FeedMessage>, file: string) returns (at: seq<nat>)
    requires AllPlain(recs) && file <= Journal(Renders(recs))
    ensures var lines := RecoverLines(Scan(file), {});
            |at| == |lines| && forall k :: 0 <= k < |at| ==> at[k] < |recs| && lines[k] == Render(recs[at[k]])
    ensures forall k, m :: 0 <= k < m < |at| ==> at[k] < at[m]
    ensures forall i :: 0 <= i < |recs| ==>
              (i in at <==> EndOf(Renders(recs), i) <= |file| && ShortLines(Renders(recs), i) && IsRestored(recs, i))
  {
    var n := Whole(Renders(recs), |file|);
    var whole := recs[..n];
    TornRecovery(recs, file);
    at := RestoredMeaning(whole);
    RendersNonEmpty(recs);
    hide RecoverLines, Scan, Restored, Journal, Render, Whole, EndOf, ShortLines, IsRestored, AllPlain;
    forall k | 0 <= k < |at| ensures at[k] < |recs| && RecoverLines(Scan(file), {})[k] == Render(recs[at[k]]) {
      RenderOf(Restored(whole, {}), k);
    }
    forall i | 0 <= i < |recs|
      ensures i in at <==> EndOf(Renders(recs), i) <= |file| && ShortLines(Renders(recs), i) && IsRestored(recs, i)
    {
      WholeMeaning(Renders(recs), |file|, i);
      if i < n {
        RestoredInPart(recs, n, i);
      }
    }
  }

  /** Whether a message is restored depends on those before it only. */
  lemma RestoredInPart(recs: seq<FeedMessage>, n: nat, i: nat)
    requires i < n <= |recs|
    ensures IsRestored(recs[..n], i) <==> IsRestored(recs, i)
  {
    hide Readable, Merges;
    assert forall j :: 0 <= j <= i ==> recs[..n][j] == recs[j];
  }

  lemma {:induction false} RenderOf(recs: seq<FeedMessage>, i: nat)
    requires i < |recs|
    ensures Renders(recs)[i] == Render(recs[i])
    decreases recs
  {
    hide Render;
    if i > 0 {
      RenderOf(recs[1..], i - 1);
    }
  }

  // ---- Lines ---------------------------------------------------------------------------------------------

  predicate OneLine(line: string) {
    forall k :: 0 <= k < |line| ==> line[k] != '\n'
  }

  lemma {:induction false} LineEndOf(line: string, rest: string)
    requires OneLine(line) && (rest == "" || rest[0] == '\n')
    ensures LineEnd(line + rest) == |line|
    decreases line
  {
    if line == "" {
      assert line + rest == rest;
    } else {
      assert (line + rest)[1..] == line[1..] + rest;
      LineEndOf(line[1..], rest);
    }
  }

  /**
   * The scanner's next line is what stands before the newline, without one carriage return at its end;
   * a line of 65536 bytes or more ends the scan. The last line needs no newline.
   */
  lemma ScanMeaning(line: string, rest: string)
    requires OneLine(line)
    ensures Scan(line + ("\n" + rest)) == if |line| < 65536 then [WithoutCR(line)] + Scan(rest) else []
    ensures line != "" ==> Scan(line) == if |line| < 65536 then [WithoutCR(line)] else []
  {
    var file := line + ("\n" + rest);
    LineEndOf(line, "\n" + rest);
    assert file[..|line|] == line && file[|line| + 1..] == rest;
    LineEndOf(line, "");
    assert line + "" == line;
  }

  /** Every text either ends in exactly the carriage return to drop, or stays. */
  function WithoutCR(line: string): (text: string)
    ensures line == text + "\r" || (text == line && (line == "" || line[|line| - 1] != '\r'))
  {
    DropCR(line)
  }
}
