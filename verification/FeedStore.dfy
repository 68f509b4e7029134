/**
 * AtomicFeedStore as an object.  Its methods are whole calls that nobody interrupts; what
 * concurrent drainers do to one another is FeedProtocol's subject.
 */
module FeedStore {
  import opened FeedFormat
  import opened FeedRecord
  import opened Json
  import opened Options
  import opened Recovery

  const CHAN_CAP := 50000
  const BUFIO_SIZE := 65536

  /** The Flush-when-full writer of package bufio over the backup file; file errors are ignored, as there. */
  class BufferedFile {
    var file: string
    var buffered: string

    ghost predicate Valid()
      reads this
    {
      |buffered| <= BUFIO_SIZE
    }

    constructor(contents: string)
      ensures Valid() && file == contents && buffered == ""
    {
      file := contents;
      buffered := "";
    }

    method Flush()
      requires Valid()
      modifies this
      ensures Valid() && file == old(file) + old(buffered) && buffered == ""
    {
      file := file + buffered;
      buffered := "";
    }

    /** bufio.Writer.Write: fills and flushes the buffer while p does not fit, then keeps the rest. */
    method Write(p: string)
      requires Valid()
      modifies this
      ensures Valid() && file + buffered == old(file) + old(buffered) + p && old(file) <= file
      ensures |old(buffered)| + |p| <= 65536 ==> file == old(file)
    {
      var rest := p;
      while |rest| > BUFIO_SIZE - |buffered|
        invariant Valid() && file + buffered + rest == old(file) + old(buffered) + p && old(file) <= file
        invariant (rest == p && buffered == old(buffered) && file == old(file)) || |old(buffered)| + |p| > 65536
        decreases |rest|, |buffered|
      {
        ghost var all := file + buffered + rest;
        if |buffered| == 0 {
          file := file + rest;
          rest := "";
          assert file + buffered + rest == all;
        } else {
          var n := BUFIO_SIZE - |buffered|;
          buffered := buffered + rest[..n];
          rest := rest[n..];
          file := file + buffered;
          buffered := "";
          assert file + buffered + rest == all;
        }
      }
      ghost var all := file + buffered + rest;
      buffered := buffered + rest;
      assert file + buffered == all;
    }

    /** The file's own write call, past the buffer. */
    method WriteThrough(p: string)
      requires Valid()
      modifies this`file
      ensures Valid() && file == old(file) + p
    {
      file := file + p;
    }

    method Truncate()
      requires Valid()
      modifies this`file
      ensures Valid() && file == ""
    {
      file := "";
    }
  }

  /** Some line decodes to a message of this key. */
  predicate HasKey(lines: seq<string>, key: string) {
    exists i :: 0 <= i < |lines| && Unmarshal(lines[i]).Some? && Key(Unmarshal(lines[i]).value) == key
  }

  lemma MoreKeys(lines: seq<string>, line: string, m: FeedMessage)
    requires Unmarshal(line) == Some(m)
    ensures forall key :: HasKey(lines + [line], key) <==> HasKey(lines, key) || key == Key(m)
  {
    hide Unmarshal, Key;
    var more := lines + [line];
    assert more[|lines|] == line;
    forall key ensures HasKey(more, key) <==> HasKey(lines, key) || key == Key(m) {
      if i :| 0 <= i < |lines| && Unmarshal(lines[i]).Some? && Key(Unmarshal(lines[i]).value) == key {
        assert more[i] == lines[i];
      }
    }
  }

  class AtomicFeedStore {
    var builder: string
    var count: int
    var seen: set<string>
    var msgChan: seq<string>
    const shm: BufferedFile?
    ghost var entries: seq<string>

    /** The buffer is empty, or `[` and the joined entries, and the counter is their number. */
    ghost predicate Valid()
      reads this, shm
    {
      && builder == BuilderOf(entries) && count == |entries| && |msgChan| <= CHAN_CAP
      && (shm != null ==> shm.Valid())
    }

    static method Appended(b: string, line: string, ghost got: seq<string>) returns (more: string)
      requires b == BuilderOf(got)
      ensures more == BuilderOf(got + [line])
    {
      BuilderAppend(got, line);
      more := AppendEntry(b, line);
    }

    /** The recovery loop: buffer, counter and seen set rebuilt from the lines of the backup file. */
    static method Recover(file: string) returns (b: string, n: int, known: set<string>, ghost got: seq<string>)
      ensures b == BuilderOf(RecoverLines(Scan(file), {})) && n == |RecoverLines(Scan(file), {})|
      ensures got == RecoverLines(Scan(file), {})
      ensures forall key :: key in known <==> HasKey(got, key)
    {
      hide RecoverLines, Scan, Unmarshal, Key;
      b, n, known, got := "", 0, {}, [];
      var rest := file;
      ghost var todo := RecoverLines(Scan(file), {});
      while rest != "" && LineEnd(rest) < MAX_TOKEN
        invariant b == BuilderOf(got) && n == |got|
        invariant forall key :: key in known <==> HasKey(got, key)
        invariant RecoverLines(Scan(file), {}) == got + todo && todo == RecoverLines(Scan(rest), known)
        decreases |rest|
      {
        var line, more := FirstLine(rest), AfterLine(rest);
        RecoverLine(rest, known);
        var msg := if line == "" then None else Unmarshal(line);
        if msg.Some? && Key(msg.value) !in known {
          b := Appended(b, line, got);
          n := n + 1;
          todo := TodoStep(got, todo, line, RecoverLines(Scan(more), known + {Key(msg.value)}));
          MoreKeys(got, line, msg.value);
          got := got + [line];
          known := known + {Key(msg.value)};
        }
        rest := more;
      }
      NothingToScan(rest, known);
      assert got + todo == got;
    }

    /** Start-up: `found` is the backup file if it could be opened for reading, `shm` if for appending. */
    constructor(found: Option<string>, shm: BufferedFile?)
      requires shm != null ==> shm.Valid()
      ensures Valid() && msgChan == [] && this.shm == shm
      ensures entries == match found case None => [] case Some(file) => RecoverLines(Scan(file), {})
      ensures forall key :: key in seen <==> HasKey(entries, key)
    {
      builder, count, seen, entries := "", 0, {}, [];
      if found.Some? {
        var b, n, known, got := Recover(found.value);
        builder, count, seen, entries := b, n, known, got;
      }
      msgChan := [];
      this.shm := shm;
    }

    /** The lock region in which worker, Add and GetFeedBytes append one record. */
    method AppendLocked(data: string)
      requires Valid()
      modifies `builder, `count, `entries
      ensures Valid() && entries == old(entries) + [data]
    {
      BuilderAppend(entries, data);
      builder := AppendEntry(builder, data);
      count := count + 1;
      entries := entries + [data];
    }

    /** The worker's receive case: buffer, then backup file. */
    method WorkerReceive()
      requires Valid() && msgChan != []
      modifies this, shm
      ensures Valid()
      ensures entries == old(entries) + [old(msgChan)[0]] && msgChan == old(msgChan)[1..]
      ensures shm != null ==>
                && shm.file + shm.buffered == old(shm.file) + old(shm.buffered) + (old(msgChan)[0] + "\n")
                && old(shm.file) <= shm.file
    {
      var data := msgChan[0];
      msgChan := msgChan[1..];
      AppendLocked(data);
      if shm != null {
        shm.Write(data);
        ghost var all := shm.file + shm.buffered;
        shm.Write("\n");
        assert all + "\n" == old(shm.file) + old(shm.buffered) + (data + "\n");
      }
    }

    /** The worker's ticker case. */
    method WorkerTick()
      requires Valid()
      modifies shm
      ensures Valid()
      ensures shm != null ==> shm.file == old(shm.file) + old(shm.buffered) && shm.buffered == ""
    {
      if shm != null {
        shm.Flush();
      }
    }

    /** Never refuses; with a full channel the record goes to the buffer at once, and to no file. */
    method Add(data: string) returns (ok: bool)
      requires Valid()
      modifies `msgChan, `builder, `count, `entries
      ensures Valid() && ok
      ensures if |old(msgChan)| < 50000 then msgChan == old(msgChan) + [data] && entries == old(entries)
              else msgChan == old(msgChan) && entries == old(entries) + [data]
    {
      if |msgChan| < CHAN_CAP {
        msgChan := msgChan + [data];
      } else {
        AppendLocked(data);
      }
      ok := true;
    }

    /** Drains the channel, mirrors what it drained to the file, and renders the feed. */
    method GetFeedBytes() returns (buf: string)
      requires Valid()
      modifies this, shm
      ensures Valid() && msgChan == [] && entries == old(entries) + old(msgChan)
      ensures buf == FeedText(BuilderOf(entries))
      ensures shm != null ==> shm.file == old(shm.file) + Journal(old(msgChan)) && shm.buffered == old(shm.buffered)
    {
      ghost var taken: seq<string> := [];
      while msgChan != []
        invariant Valid() && old(msgChan) == taken + msgChan && entries == old(entries) + taken
        invariant shm != null ==> shm.file == old(shm.file) + Journal(taken) && shm.buffered == old(shm.buffered)
        decreases |msgChan|
      {
        var data := msgChan[0];
        msgChan := msgChan[1..];
        AppendLocked(data);
        if shm != null {
          shm.WriteThrough(data);
          shm.WriteThrough("\n");
          JournalAppend(taken, data);
          assert old(shm.file) + Journal(taken) + data + "\n" == old(shm.file) + (Journal(taken) + (data + "\n"));
        }
        taken := taken + [data];
      }
      assert taken == old(msgChan);
      if |builder| == 0 {
        return "[]";
      }
      buf := builder + "]";
    }

    /** Everything in memory and the file goes; what the worker's writer still buffers stays. */
    method Reset()
      requires Valid()
      modifies this, shm
      ensures Valid() && msgChan == [] && entries == [] && seen == {}
      ensures shm != null ==> shm.file == "" && shm.buffered == old(shm.buffered)
    {
      while msgChan != []
        invariant shm != null ==> shm.Valid() && shm.buffered == old(shm.buffered)
        decreases |msgChan|
      {
        msgChan := msgChan[1..];
      }
      seen := {};
      builder := "";
      count := 0;
      entries := [];
      if shm != null {
        shm.Truncate();
      }
    }
  }

  // ---- From crash to feed ------------------------------------------------------------------------

  lemma {:induction false} ReadablesAreReadable(recs: seq<FeedMessage>)
    ensures AllReadable(Readables(recs))
    decreases recs
  {
    if recs != [] {
      ReadablesAreReadable(recs[1..]);
    }
  }

  lemma {:induction false} FirstPerKeyReadable(recs: seq<FeedMessage>, seen: set<string>)
    requires AllReadable(recs)
    ensures AllReadable(FirstPerKey(recs, seen))
    decreases recs
  {
    if recs != [] {
      AllReadableCons(recs);
      FirstPerKeyReadable(recs[1..], if ReadKey(recs[0]) in seen then seen else seen + {ReadKey(recs[0])});
    }
  }

  /** The scanner's next token. */
  function FirstLine(rest: string): string {
    DropCR(rest[..LineEnd(rest)])
  }

  function AfterLine(rest: string): (more: string)
    ensures rest != "" ==> |more| < |rest|
  {
    if LineEnd(rest) == |rest| then "" else rest[LineEnd(rest) + 1..]
  }

  /** One round of the recovery loop, in terms of what it has still to find. */
  lemma RecoverLine(rest: string, known: set<string>)
    requires rest != "" && LineEnd(rest) < MAX_TOKEN
    ensures var line := FirstLine(rest);
            var msg := if line == "" then None else Unmarshal(line);
            RecoverLines(Scan(rest), known) ==
            if msg.Some? && Key(msg.value) !in known
            then [line] + RecoverLines(Scan(AfterLine(rest)), known + {Key(msg.value)})
            else RecoverLines(Scan(AfterLine(rest)), known)
  {
    var line, more := FirstLine(rest), AfterLine(rest);
    if LineEnd(rest) == |rest| {
      assert rest[..LineEnd(rest)] == rest;
    }
    assert Scan(rest) == [line] + Scan(more);
    assert Scan(rest)[1..] == Scan(more);
  }

  lemma TodoStep(got: seq<string>, todo: seq<string>, line: string, more: seq<string>) returns (left: seq<string>)
    requires todo == [line] + more
    ensures left == more && got + todo == (got + [line]) + left
  {
    left := more;
  }

  lemma NothingToScan(rest: string, known: set<string>)
    requires rest == "" || LineEnd(rest) >= MAX_TOKEN
    ensures RecoverLines(Scan(rest), known) == []
  {}

  /** What survives of the journal of recs when the file ends after n bytes. */
  function Kept(recs: seq<FeedMessage>, n: nat): seq<FeedMessage> {
    Restored(recs[..Whole(Renders(recs), n)], {})
  }

  lemma KeptReadable(recs: seq<FeedMessage>, n: nat)
    ensures AllReadable(Kept(recs, n))
  {
    var whole := recs[..Whole(Renders(recs), n)];
    ReadablesAreReadable(whole);
    FirstPerKeyReadable(Readables(whole), {});
  }

  /**
   * After a crash that leaves any prefix of the worker's journal in the file, the restarted store
   * holds exactly the readable ones of the records that were wholly written, each key once, in order
   * and byte for byte, and serves them as a JSON array.
   */
  lemma RecoveredFeed(recs: seq<FeedMessage>, file: string, entries: seq<string>)
    requires AllPlain(recs) && file <= Journal(Renders(recs)) && entries == RecoverLines(Scan(file), {})
    ensures entries == Renders(Kept(recs, |file|))
    ensures Parse(FeedText(BuilderOf(entries))) == Some(Arr(ToJsons(AsReads(Kept(recs, |file|)))))
  {
    TornRecovery(recs, file);
    KeptReadable(recs, |file|);
    FeedAsRead(Kept(recs, |file|));
  }
}
