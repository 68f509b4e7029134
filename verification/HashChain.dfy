/**
 * The tamper-evident chain of integrity.py.
 *
 * SHA-256 is a parameter `h`, of which only the shape of a hexadecimal digest is assumed
 * (`Sha256Shape`).  It is never assumed to be injective: a theorem that would need that
 * says instead "or here is a `Break`", and a function computes the collision or the
 * preimage of GENESIS from the rows at hand.
 */
module HashChain {
  import opened Options
  import opened Text

  function Zeros(n: nat): (s: string)
    ensures |s| == n && forall c :: c in s ==> c == '0'
  {
    if n == 0 then "" else Zeros(n - 1) + "0"
  }

  const GENESIS: string := Zeros(64)

  /** A stored message; `username` .. `timestamp` and the link before it are what is hashed. */
  datatype Row = Row(
    msgId: string, username: string, plaintext: string, ciphertext: string, signature: string,
    pubkey: string, timestamp: int, prevHash: string, recordHash: string)

  datatype Hashed = Hashed(prev: string, username: string, ciphertext: string, signature: string, timestamp: int)

  /** The columns that `verify_record` reads, apart from the stored digest. */
  function HashedOf(prev: string, row: Row): Hashed {
    Hashed(prev, row.username, row.ciphertext, row.signature, row.timestamp)
  }

  function Payload(f: Hashed): string {
    f.prev + "|" + f.username + "|" + f.ciphertext + "|" + f.signature + "|" + IntText(f.timestamp)
  }

  function ComputeRecordHash(h: string -> string, f: Hashed): string {
    h(Payload(f))
  }

  function VerifyRecord(h: string -> string, row: Row, prev: string): bool {
    ComputeRecordHash(h, HashedOf(prev, row)) == row.recordHash
  }

  // A digest is 64 characters, none of which is the separator.
  predicate DigestShape(s: string) {
    |s| == 64 && '|' !in s
  }

  ghost predicate Sha256Shape(h: string -> string) {
    forall s: string :: DigestShape(h(s))
  }

  /** The link a row is checked against: the digest *stored* in the row before it. */
  function PrevOf(rows: seq<Row>, i: nat): string
    requires i < |rows|
  {
    if i == 0 then GENESIS else rows[i - 1].recordHash
  }

  predicate RowOk(h: string -> string, rows: seq<Row>, i: nat)
    requires i < |rows|
  {
    VerifyRecord(h, rows[i], PrevOf(rows, i))
  }

  /** Every verdict of `verify_chain` is True. */
  predicate Verifies(h: string -> string, rows: seq<Row>) {
    forall i :: 0 <= i < |rows| ==> RowOk(h, rows, i)
  }

  function Tail(rows: seq<Row>): string {
    if rows == [] then GENESIS else rows[|rows| - 1].recordHash
  }

  method VerifyChain(h: string -> string, rows: seq<Row>) returns (results: seq<bool>)
    ensures |results| == |rows|
    ensures forall i :: 0 <= i < |rows| ==> results[i] == RowOk(h, rows, i)
    ensures (forall i :: 0 <= i < |results| ==> results[i]) <==> Verifies(h, rows)
  {
    hide VerifyRecord;
    results := [];
    var prev := GENESIS;
    for i := 0 to |rows|
      invariant |results| == i
      invariant prev == if i == 0 then GENESIS else rows[i - 1].recordHash
      invariant forall k :: 0 <= k < i ==> results[k] == RowOk(h, rows, k)
    {
      results := results + [VerifyRecord(h, rows[i], prev)];
      prev := rows[i].recordHash;
    }
  }

  // ---- The payload can be taken apart again --------------------------------------------

  function FirstBar(s: string): (i: nat)
    ensures i <= |s|
  {
    if s == "" || s[0] == '|' then 0 else 1 + FirstBar(s[1..])
  }

  /** Position after the last separator, 0 when there is none. */
  function AfterLastBar(s: string): (i: nat)
    ensures i <= |s|
    ensures i > 0 ==> s[i - 1] == '|'
    ensures forall k :: i <= k < |s| ==> s[k] != '|'
  {
    if s == "" then 0
    else if s[|s| - 1] == '|' then |s|
    else AfterLastBar(s[..|s| - 1])
  }

  /** Splits the last `|`-separated field off. */
  function SplitLast(s: string): Option<(string, string)> {
    var i := AfterLastBar(s);
    if i == 0 then None else Some((s[..i - 1], s[i..]))
  }

  /** The four fields after the link, taken off from the right. */
  function ParseBody(body: string): Option<(string, string, string, int)> {
    match SplitLast(body)
    case None => None
    case Some((rest1, time)) =>
      match SplitLast(rest1)
      case None => None
      case Some((rest2, signature)) =>
        match SplitLast(rest2)
        case None => None
        case Some((username, ciphertext)) =>
          if IsDecimal(time) then Some((username, ciphertext, signature, IntValue(time))) else None
  }

  function ParsePayload(s: string): Option<Hashed> {
    var i := FirstBar(s);
    if i == |s| then None else
    match ParseBody(s[i + 1..])
    case None => None
    case Some((username, ciphertext, signature, time)) => Some(Hashed(s[..i], username, ciphertext, signature, time))
  }

  lemma {:induction false} FirstBarAfter(a: string, b: string)
    requires '|' !in a
    ensures FirstBar(a + "|" + b) == |a|
  {
    var s := a + "|" + b;
    if a != "" {
      assert s[1..] == a[1..] + "|" + b;
      FirstBarAfter(a[1..], b);
    }
  }

  lemma {:induction false} FirstBarWithin(s: string, k: nat)
    requires k < |s| && s[k] == '|'
    ensures FirstBar(s) <= k
  {
    if k > 0 && s[0] != '|' {
      FirstBarWithin(s[1..], k - 1);
    }
  }

  lemma SplitLastAfter(a: string, b: string)
    ensures SplitLast(a + "|" + b).Some?
    ensures '|' !in b <==> SplitLast(a + "|" + b) == Some((a, b))
  {
    var s := a + "|" + b;
    assert s[|a|] == '|';
    var i := AfterLastBar(s);
    if '|' !in b {
      assert forall k :: |a| + 1 <= k < |s| ==> s[k] == b[k - |a| - 1];
      assert i == |a| + 1;
      assert s[..|a|] == a && s[|a| + 1..] == b;
    }
  }

  predicate BarFree(f: Hashed) {
    '|' !in f.prev && '|' !in f.ciphertext && '|' !in f.signature
  }

  function Body(f: Hashed): string {
    f.username + "|" + f.ciphertext + "|" + f.signature + "|" + IntText(f.timestamp)
  }

  lemma PayloadIsLinkAndBody(f: Hashed)
    ensures Payload(f) == f.prev + "|" + Body(f)
  {}

  lemma BodyRoundTrip(f: Hashed)
    ensures '|' !in f.ciphertext && '|' !in f.signature <==>
            ParseBody(Body(f)) == Some((f.username, f.ciphertext, f.signature, f.timestamp))
  {
    var time := IntText(f.timestamp);
    IntTextRoundTrip(f.timestamp);
    assert '|' !in time;
    var r2 := f.username + "|" + f.ciphertext;
    var r1 := r2 + "|" + f.signature;
    assert Body(f) == r1 + "|" + time;
    SplitLastAfter(r1, time);
    SplitLastAfter(r2, f.signature);
    SplitLastAfter(f.username, f.ciphertext);
  }

  /**
   * Taking a payload apart gives back the five fields exactly when the link, ciphertext and
   * signature hold no separator; the username may hold any number of them.
   */
  lemma PayloadRoundTrip(f: Hashed)
    ensures BarFree(f) <==> ParsePayload(Payload(f)) == Some(f)
  {
    PayloadIsLinkAndBody(f);
    var s := f.prev + "|" + Body(f);
    if '|' in f.prev {
      var k :| 0 <= k < |f.prev| && f.prev[k] == '|';
      assert s[k] == '|';
      FirstBarWithin(s, k);
      assert |s[..FirstBar(s)]| < |f.prev|;
    } else {
      FirstBarAfter(f.prev, Body(f));
      assert s[..|f.prev|] == f.prev && s[|f.prev| + 1..] == Body(f);
      BodyRoundTrip(f);
    }
  }

  /** Different fields never print the same payload. */
  lemma PayloadInjective(f: Hashed, g: Hashed)
    requires BarFree(f) && BarFree(g)
    requires Payload(f) == Payload(g)
    ensures f == g
  {
    PayloadRoundTrip(f);
    PayloadRoundTrip(g);
  }

  /** With no separator kept out, two different records do print the same payload. */
  lemma PayloadAmbiguous()
    ensures var f := Hashed(GENESIS, "a", "b|c", "s", 0);
            var g := Hashed(GENESIS, "a|b", "c", "s", 0);
            f != g && Payload(f) == Payload(g)
  {
    SameJoint(GENESIS, "a", "b", "c", "s", IntText(0));
    assert "a" + "|" + "b" == "a|b" && "b" + "|" + "c" == "b|c" && |"a"| != |"a|b"|;
  }

  lemma SameJoint(prev: string, a: string, b: string, c: string, s: string, n: string)
    ensures prev + "|" + a + "|" + (b + "|" + c) + "|" + s + "|" + n ==
            prev + "|" + (a + "|" + b) + "|" + c + "|" + s + "|" + n
  {
    var l, r := prev + "|" + a + "|" + (b + "|" + c), prev + "|" + (a + "|" + b) + "|" + c;
    assert l == r;
  }

  lemma SamePayloadSamePrev(f: Hashed, g: Hashed)
    requires |f.prev| == |g.prev|
    requires Payload(f) == Payload(g)
    ensures f.prev == g.prev
  {
    assert Payload(f)[..|f.prev|] == f.prev;
    assert Payload(g)[..|g.prev|] == g.prev;
  }

  lemma SameFieldsOtherPrev(f: Hashed, prev: string)
    requires Payload(f) == Payload(f.(prev := prev))
    ensures f.prev == prev
  {
    var rest := "|" + f.username + "|" + f.ciphertext + "|" + f.signature + "|" + IntText(f.timestamp);
    assert Payload(f) == f.prev + rest;
    assert Payload(f.(prev := prev)) == prev + rest;
    assert |f.prev| == |prev|;
    assert (f.prev + rest)[..|prev|] == (prev + rest)[..|prev|];
  }

  // ---- Evidence against the hash function ----------------------------------------------

  datatype Break = Collision(a: string, b: string) | GenesisPreimage(a: string)

  predicate IsBreak(h: string -> string, b: Break) {
    match b
    case Collision(x, y) => x != y && h(x) == h(y)
    case GenesisPreimage(x) => h(x) == GENESIS
  }

  /** What row i of a verifying list hashes. */
  function PayloadAt(rows: seq<Row>, i: nat): string
    requires i < |rows|
  {
    Payload(HashedOf(PrevOf(rows, i), rows[i]))
  }

  /**
   * Walks two lists back from their ends, which carry the same digest, to the first place
   * where they disagree on a payload or on being at their start.
   */
  function BindingBreak(a: seq<Row>, b: seq<Row>): Option<Break> {
    if a == [] && b == [] then None
    else if a == [] then Some(GenesisPreimage(PayloadAt(b, |b| - 1)))
    else if b == [] then Some(GenesisPreimage(PayloadAt(a, |a| - 1)))
    else
      var pa, pb := PayloadAt(a, |a| - 1), PayloadAt(b, |b| - 1);
      if pa != pb then Some(Collision(pa, pb)) else BindingBreak(a[..|a| - 1], b[..|b| - 1])
  }

  lemma VerifiesPrefix(h: string -> string, rows: seq<Row>, n: nat)
    requires n <= |rows|
    requires Verifies(h, rows)
    ensures Verifies(h, rows[..n])
  {
    forall i | 0 <= i < n ensures RowOk(h, rows[..n], i) {
      assert RowOk(h, rows, i);
    }
  }

  /** At places i and j the lists hash the same payload, link to the same digest and store the same digest. */
  predicate SameLink(a: seq<Row>, b: seq<Row>, i: nat, j: nat)
    requires i < |a| && j < |b|
  {
    PayloadAt(a, i) == PayloadAt(b, j) && PrevOf(a, i) == PrevOf(b, j) && a[i].recordHash == b[j].recordHash
  }

  lemma SameLinkInPrefix(a: seq<Row>, b: seq<Row>, m: nat, i: nat)
    requires i < m <= |a| && m <= |b|
    requires SameLink(a[..m], b[..m], i, i)
    ensures SameLink(a, b, i, i)
  {}

  /** What a comparison of two verifying lists with the same tail establishes. */
  ghost predicate BoundTogether(h: string -> string, a: seq<Row>, b: seq<Row>, found: Option<Break>) {
    match found
    case Some(w) => IsBreak(h, w)
    case None => |a| == |b| && forall i :: 0 <= i < |a| ==> SameLink(a, b, i, i)
  }

  /** Two verifying lists with the same tail: a break, or the same links at every place. */
  lemma {:induction false} SameLinks(h: string -> string, a: seq<Row>, b: seq<Row>)
    requires Sha256Shape(h) && Verifies(h, a) && Verifies(h, b) && Tail(a) == Tail(b)
    ensures BoundTogether(h, a, b, BindingBreak(a, b))
    decreases |a|
  {
    hide Payload, Tail;
    if a == [] || b == [] || PayloadAt(a, |a| - 1) != PayloadAt(b, |b| - 1) {
      LastLinksDiffer(h, a, b);
    } else {
      var c, d := a[..|a| - 1], b[..|b| - 1];
      SameLastLink(h, a, b);
      VerifiesPrefix(h, a, |c|);
      VerifiesPrefix(h, b, |d|);
      SameLinks(h, c, d);
      SameLastBreak(a, b);
      ExtendBound(h, a, b, BindingBreak(c, d));
    }
  }

  lemma SameLastBreak(a: seq<Row>, b: seq<Row>)
    requires a != [] && b != [] && PayloadAt(a, |a| - 1) == PayloadAt(b, |b| - 1)
    ensures BindingBreak(a, b) == BindingBreak(a[..|a| - 1], b[..|b| - 1])
  {}

  lemma LastLinksDiffer(h: string -> string, a: seq<Row>, b: seq<Row>)
    requires Verifies(h, a) && Verifies(h, b) && Tail(a) == Tail(b)
    requires a == [] || b == [] || PayloadAt(a, |a| - 1) != PayloadAt(b, |b| - 1)
    ensures BoundTogether(h, a, b, BindingBreak(a, b))
  {
    if a != [] { assert RowOk(h, a, |a| - 1); }
    if b != [] { assert RowOk(h, b, |b| - 1); }
  }

  lemma ExtendBound(h: string -> string, a: seq<Row>, b: seq<Row>, found: Option<Break>)
    requires a != [] && b != [] && SameLink(a, b, |a| - 1, |b| - 1)
    requires BoundTogether(h, a[..|a| - 1], b[..|b| - 1], found)
    ensures BoundTogether(h, a, b, found)
  {
    if found.None? {
      forall i | 0 <= i < |a| ensures SameLink(a, b, i, i) {
        if i < |a| - 1 {
          SameLinkInPrefix(a, b, |a| - 1, i);
        }
      }
    }
  }

  lemma SameLastLink(h: string -> string, a: seq<Row>, b: seq<Row>)
    requires Sha256Shape(h) && Verifies(h, a) && Verifies(h, b) && Tail(a) == Tail(b)
    requires a != [] && b != [] && PayloadAt(a, |a| - 1) == PayloadAt(b, |b| - 1)
    ensures SameLink(a, b, |a| - 1, |b| - 1)
    ensures Tail(a[..|a| - 1]) == Tail(b[..|b| - 1])
  {
    PrevShape(h, a, |a| - 1);
    PrevShape(h, b, |b| - 1);
    SamePayloadSamePrev(HashedOf(PrevOf(a, |a| - 1), a[|a| - 1]), HashedOf(PrevOf(b, |b| - 1), b[|b| - 1]));
  }

  lemma PrevShape(h: string -> string, rows: seq<Row>, i: nat)
    requires Sha256Shape(h) && Verifies(h, rows) && i < |rows|
    ensures DigestShape(PrevOf(rows, i))
  {
    if i > 0 {
      assert RowOk(h, rows, i - 1);
    }
  }

  predicate SameHashedColumns(x: Row, y: Row) {
    x.username == y.username && x.ciphertext == y.ciphertext && x.signature == y.signature
    && x.timestamp == y.timestamp && x.recordHash == y.recordHash
  }

  // crypto_utils and signatures produce base64 text, which never holds the separator.
  predicate Base64Columns(rows: seq<Row>) {
    forall i :: 0 <= i < |rows| ==> '|' !in rows[i].ciphertext && '|' !in rows[i].signature
  }

  /** The last digest binds the whole history: its length and every hashed column of every row. */
  lemma ChainBinding(h: string -> string, a: seq<Row>, b: seq<Row>)
    requires Sha256Shape(h) && Verifies(h, a) && Verifies(h, b) && Tail(a) == Tail(b)
    requires Base64Columns(a) && Base64Columns(b)
    ensures match BindingBreak(a, b)
            case Some(w) => IsBreak(h, w)
            case None => |a| == |b| && forall i :: 0 <= i < |a| ==> SameHashedColumns(a[i], b[i])
  {
    SameLinks(h, a, b);
    if BindingBreak(a, b).None? {
      forall i | 0 <= i < |a| ensures SameHashedColumns(a[i], b[i]) {
        assert SameLink(a, b, i, i);
        PrevShape(h, a, i);
        PrevShape(h, b, i);
        PayloadInjective(HashedOf(PrevOf(a, i), a[i]), HashedOf(PrevOf(b, i), b[i]));
      }
    }
  }

  // ---- Deleting, reordering and repeating stored rows ----------------------------------

  predicate DrawnFrom(s: seq<Row>, r: seq<Row>) {
    forall i :: 0 <= i < |s| ==> s[i] in r
  }

  function IndexIn(r: seq<Row>, row: Row): (k: nat)
    requires row in r
    ensures k < |r| && r[k] == row
  {
    if r[0] == row then 0 else 1 + IndexIn(r[1..], row)
  }

  /** The break that a verifying, but not prefix-shaped, selection `s` of the rows of `r` exhibits. */
  function SelectionBreak(r: seq<Row>, s: seq<Row>): Option<Break>
    requires DrawnFrom(s, r)
  {
    if s == [] then None else
    var n := |s| - 1;
    match SelectionBreak(r, s[..n])
    case Some(w) => Some(w)
    case None =>
      if n < |r| && s[n] == r[n] then None
      else
        var k := IndexIn(r, s[n]);
        var here := Payload(HashedOf(PrevOf(s, n), s[n]));
        if here != PayloadAt(r, k) then Some(Collision(here, PayloadAt(r, k)))
        else if n <= |r| then BindingBreak(r[..n], r[..k])
        else None
  }

  /**
   * Rows kept unmodified but deleted, reordered or repeated: the selection verifies exactly
   * when it is a prefix of the original list, or it exhibits a break of the hash function.
   */
  lemma {:induction false} SelectionVerifiesIffPrefix(h: string -> string, r: seq<Row>, s: seq<Row>)
    requires Sha256Shape(h) && Verifies(h, r) && DrawnFrom(s, r)
    ensures s <= r ==> Verifies(h, s)
    ensures Verifies(h, s) ==> match SelectionBreak(r, s)
                               case Some(w) => IsBreak(h, w)
                               case None => s <= r
  {
    hide BindingBreak, Payload;
    if s <= r {
      VerifiesPrefix(h, r, |s|);
      assert r[..|s|] == s;
    }
    if Verifies(h, s) && s != [] {
      var n := |s| - 1;
      VerifiesPrefix(h, s, n);
      SelectionVerifiesIffPrefix(h, r, s[..n]);
      if SelectionBreak(r, s[..n]).None? && !(n < |r| && s[n] == r[n]) {
        var k := IndexIn(r, s[n]);
        assert s[..n] == r[..n];
        SelectionStep(h, r, s, n, k);
      }
    }
  }

  /** The last row of `s` sits at another place k of `r`: the two links cannot both be genuine. */
  lemma SelectionStep(h: string -> string, r: seq<Row>, s: seq<Row>, n: nat, k: nat)
    requires Sha256Shape(h) && Verifies(h, r) && Verifies(h, s)
    requires |s| == n + 1 && n <= |r| && s[..n] == r[..n]
    requires k < |r| && r[k] == s[n] && k != n
    ensures var here := Payload(HashedOf(PrevOf(s, n), s[n]));
            if here != PayloadAt(r, k) then IsBreak(h, Collision(here, PayloadAt(r, k)))
            else BindingBreak(r[..n], r[..k]).Some? && IsBreak(h, BindingBreak(r[..n], r[..k]).value)
  {
    assert RowOk(h, s, n);
    assert RowOk(h, r, k);
    var f := HashedOf(PrevOf(s, n), s[n]);
    if Payload(f) == PayloadAt(r, k) {
      SameFieldsOtherPrev(f, PrevOf(r, k));
      if n > 0 { assert s[n - 1] == s[..n][n - 1] == r[n - 1]; }
      assert Tail(r[..n]) == PrevOf(s, n);
      assert Tail(r[..k]) == PrevOf(r, k);
      VerifiesPrefix(h, r, n);
      VerifiesPrefix(h, r, k);
      SameLinks(h, r[..n], r[..k]);
    }
  }

  // ---- Editing one stored row ----------------------------------------------------------

  /**
   * Editing the hashed columns of row k of an intact list: every other verdict stays True, and
   * the verdict of row k turns False unless the edit leaves the payload alone or is a collision.
   */
  lemma EditedFieldsAreLocal(h: string -> string, rows: seq<Row>, k: nat, row: Row)
    requires Verifies(h, rows) && k < |rows| && row.recordHash == rows[k].recordHash
    ensures var edited := rows[k := row];
            && (forall i :: 0 <= i < |rows| && i != k ==> RowOk(h, edited, i))
            && (RowOk(h, edited, k) <==>
                  PayloadAt(edited, k) == PayloadAt(rows, k)
                  || IsBreak(h, Collision(PayloadAt(edited, k), PayloadAt(rows, k))))
  {
    var edited := rows[k := row];
    assert RowOk(h, rows, k);
    forall i | 0 <= i < |rows| && i != k ensures RowOk(h, edited, i) {
      assert RowOk(h, rows, i);
    }
  }

  /** On base64 columns every real edit of a hashed column changes the payload. */
  lemma EditedFieldsAreCaught(h: string -> string, rows: seq<Row>, k: nat, row: Row)
    requires Sha256Shape(h) && Verifies(h, rows) && k < |rows| && row.recordHash == rows[k].recordHash
    requires Base64Columns(rows) && Base64Columns([row])
    requires !SameHashedColumns(row, rows[k])
    ensures !RowOk(h, rows[k := row], k)
            || IsBreak(h, Collision(PayloadAt(rows[k := row], k), PayloadAt(rows, k)))
  {
    EditedFieldsAreLocal(h, rows, k, row);
    PrevShape(h, rows, k);
    assert [row][0] == row;
    if PayloadAt(rows[k := row], k) == PayloadAt(rows, k) {
      PayloadInjective(HashedOf(PrevOf(rows, k), row), HashedOf(PrevOf(rows, k), rows[k]));
    }
  }

  /** Editing only the stored digest breaks row k and the row after it, and nothing else. */
  lemma EditedDigestIsLocal(h: string -> string, rows: seq<Row>, k: nat, digest: string)
    requires Verifies(h, rows) && k < |rows| && digest != rows[k].recordHash
    ensures var edited := rows[k := rows[k].(recordHash := digest)];
            && (forall i :: 0 <= i < |rows| && i != k && i != k + 1 ==> RowOk(h, edited, i))
            && !RowOk(h, edited, k)
            && (k + 1 < |rows| ==>
                  !RowOk(h, edited, k + 1)
                  || IsBreak(h, Collision(PayloadAt(edited, k + 1), PayloadAt(rows, k + 1))))
  {
    var edited := rows[k := rows[k].(recordHash := digest)];
    assert RowOk(h, rows, k);
    forall i | 0 <= i < |rows| && i != k && i != k + 1 ensures RowOk(h, edited, i) {
      assert RowOk(h, rows, i);
    }
    if k + 1 < |rows| {
      assert RowOk(h, rows, k + 1);
      if PayloadAt(edited, k + 1) == PayloadAt(rows, k + 1) {
        SameFieldsOtherPrev(HashedOf(rows[k].recordHash, rows[k + 1]), digest);
      }
    }
  }

  /** A verifying list stays verifying when a properly linked row is added. */
  lemma VerifiesAppend(h: string -> string, rows: seq<Row>, row: Row)
    requires Verifies(h, rows)
    ensures Verifies(h, rows + [row]) <==> VerifyRecord(h, row, Tail(rows))
  {
    var more := rows + [row];
    assert RowOk(h, more, |rows|) == VerifyRecord(h, row, Tail(rows));
    forall i | 0 <= i < |rows| ensures RowOk(h, more, i) {
      assert RowOk(h, rows, i);
    }
  }
}
