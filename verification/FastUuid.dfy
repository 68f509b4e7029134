/**
 * The ids that `POST /message` makes up for messages without one: a nanosecond clock and a global
 * counter, both 64 bits wide, in hexadecimal.
 */
module FastUuid {
  import opened FeedRecord
  import opened GoQuote
  import opened Json
  import opened RawText

  const WORD := 0x1_0000_0000_0000_0000

  /** `%016x-%016x` of the clock, converted to an unsigned word, and the counter. */
  function Uuid(now: int, counter: nat): string
    requires counter < WORD
  {
    HexText(now % WORD, 16) + "-" + HexText(counter, 16)
  }

  class UuidSource {
    var counter: nat

    constructor()
      ensures counter == 0
    {
      counter := 0;
    }

    /** An atomic increment that wraps around, then the clock. */
    method Next(now: int) returns (id: string)
      requires counter < WORD
      modifies this
      ensures counter == (old(counter) + 1) % WORD && id == Uuid(now, counter)
    {
      counter := (counter + 1) % WORD;
      id := HexText(now % WORD, 16) + "-" + HexText(counter, 16);
    }
  }

  /** The ids of a run of calls, one per clock reading. */
  function Ids(counter: nat, clocks: seq<int>): (ids: seq<string>)
    requires counter < WORD
    ensures |ids| == |clocks|
    decreases clocks
  {
    if clocks == [] then []
    else
      var next := (counter + 1) % WORD;
      [Uuid(clocks[0], next)] + Ids(next, clocks[1..])
  }

  function Power16(digits: nat): nat {
    if digits == 0 then 1 else 16 * Power16(digits - 1)
  }

  lemma HexDigitInjective(a: nat, b: nat)
    requires a < 16 && b < 16 && HexDigit(a) == HexDigit(b)
    ensures a == b
  {
    HexDigitValue(a);
    HexDigitValue(b);
  }

  lemma {:induction false} HexTextInjective(m: nat, n: nat, digits: nat)
    requires m < Power16(digits) && n < Power16(digits) && HexText(m, digits) == HexText(n, digits)
    ensures m == n
    decreases digits
  {
    if digits > 0 {
      var a, b := HexText(m / 16, digits - 1), HexText(n / 16, digits - 1);
      assert HexText(m, digits)[..digits - 1] == a && HexText(n, digits)[..digits - 1] == b;
      assert HexText(m, digits)[digits - 1] == HexDigit(m % 16) && HexText(n, digits)[digits - 1] == HexDigit(n % 16);
      HexTextInjective(m / 16, n / 16, digits - 1);
      HexDigitInjective(m % 16, n % 16);
    }
  }

  lemma WordIsPower()
    ensures Power16(16) == WORD
  {
    assert Power16(4) == 0x1_0000;
    assert Power16(8) == 0x1_0000_0000;
    assert Power16(12) == 0x1_0000_0000_0000;
  }

  /** Two ids are equal exactly when counter and clock (as words) both are. */
  lemma UuidInjective(now: int, counter: nat, now': int, counter': nat)
    requires counter < WORD && counter' < WORD
    ensures Uuid(now, counter) == Uuid(now', counter') <==> counter == counter' && now % WORD == now' % WORD
  {
    var a, b := Uuid(now, counter), Uuid(now', counter');
    if a == b {
      assert a[..16] == HexText(now % WORD, 16) && b[..16] == HexText(now' % WORD, 16);
      assert a[17..] == HexText(counter, 16) && b[17..] == HexText(counter', 16);
      WordIsPower();
      HexTextInjective(now % WORD, now' % WORD, 16);
      HexTextInjective(counter, counter', 16);
    }
  }

  lemma WrapTwice(a: nat, b: nat)
    ensures (a % WORD + b) % WORD == (a + b) % WORD
  {
    assert a == WORD * (a / WORD) + a % WORD;
  }

  /** The number that hexadecimal digits spell. */
  function HexNumber(text: string): nat
    requires forall k :: 0 <= k < |text| ==> IsHex(text[k])
  {
    if text == "" then 0 else HexNumber(text[..|text| - 1]) * 16 + HexValue(text[|text| - 1])
  }

  lemma {:induction false} HexReadsBack(n: nat, digits: nat)
    requires n < Power16(digits)
    ensures HexNumber(HexText(n, digits)) == n
    decreases digits
  {
    if digits > 0 {
      HexReadsBack(n / 16, digits - 1);
      HexDigitValue(n % 16);
      var text := HexText(n, digits);
      assert text[..digits - 1] == HexText(n / 16, digits - 1) && text[digits - 1] == HexDigit(n % 16);
    }
  }

  /** An id is 16 digits of clock, a dash and 16 digits of counter, in this order. */
  lemma UuidReadsBack(now: int, counter: nat)
    requires counter < WORD
    ensures var id := Uuid(now, counter);
            && |id| == 33 && id[16] == '-'
            && (forall k :: 0 <= k < 16 ==> IsHex(id[..16][k])) && HexNumber(id[..16]) == now % 0x1_0000_0000_0000_0000
            && (forall k :: 0 <= k < 16 ==> IsHex(id[17..][k])) && HexNumber(id[17..]) == counter
  {
    var id := Uuid(now, counter);
    assert id[..16] == HexText(now % WORD, 16) && id[17..] == HexText(counter, 16);
    WordIsPower();
    HexReadsBack(now % WORD, 16);
    HexReadsBack(counter, 16);
  }

  lemma {:induction false} IdAt(counter: nat, clocks: seq<int>, i: nat)
    requires counter < WORD && i < |clocks|
    ensures Ids(counter, clocks)[i] == Uuid(clocks[i], (counter + 1 + i) % WORD)
    decreases clocks
  {
    hide Uuid;
    if i > 0 {
      var next := (counter + 1) % WORD;
      IdAt(next, clocks[1..], i - 1);
      WrapTwice(counter + 1, i);
      assert clocks[1..][i - 1] == clocks[i];
      assert Ids(counter, clocks)[i] == Ids(next, clocks[1..])[i - 1];
    }
  }

  lemma CountersDiffer(a: nat, d: nat)
    ensures a % WORD == (a + d) % WORD <==> d % WORD == 0
  {
    var r, e := a % WORD, d % WORD;
    WrapTwice(a, d);
    WrapTwice(d, r);
    assert r + d == d + r && r + e == e + r;
    assert (r + d) % WORD == if r + e < WORD then r + e else r + e - WORD;
  }

  /** Whatever the clock does, two ids of one process are equal exactly when counter and clock words both recur. */
  lemma IdsDiffer(counter: nat, clocks: seq<int>, i: nat, j: nat)
    requires counter < WORD && i < j < |clocks|
    ensures Ids(counter, clocks)[i] == Ids(counter, clocks)[j] <==>
            (j - i) % WORD == 0 && clocks[i] % WORD == clocks[j] % WORD
  {
    var c, d := CountersAt(counter, i, j);
    IdAt(counter, clocks, i);
    IdAt(counter, clocks, j);
    UuidInjective(clocks[i], c, clocks[j], d);
  }

  lemma CountersAt(counter: nat, i: nat, j: nat) returns (c: nat, d: nat)
    requires i < j
    ensures c == (counter + 1 + i) % WORD && d == (counter + 1 + j) % WORD
    ensures c == d <==> (j - i) % WORD == 0
  {
    c, d := (counter + 1 + i) % WORD, (counter + 1 + j) % WORD;
    CountersDiffer(counter + 1 + i, j - i);
    assert counter + 1 + i + (j - i) == counter + 1 + j;
  }

  /** What the source hands out over any number of calls. */
  method IssueAll(source: UuidSource, clocks: seq<int>) returns (ids: seq<string>)
    requires source.counter < WORD
    modifies source
    ensures ids == Ids(old(source.counter), clocks) && source.counter == (old(source.counter) + |clocks|) % WORD
    ensures forall i, j :: 0 <= i < j < |ids| ==>
              (ids[i] == ids[j] <==> (j - i) % WORD == 0 && clocks[i] % WORD == clocks[j] % WORD)
    decreases clocks
  {
    hide Uuid;
    ghost var counter := source.counter;
    if clocks == [] {
      ids := [];
    } else {
      var id := source.Next(clocks[0]);
      var rest := IssueAll(source, clocks[1..]);
      ids := [id] + rest;
      WrapTwice(counter + 1, |clocks| - 1);
    }
    forall i, j | 0 <= i < j < |clocks|
      ensures ids[i] == ids[j] <==> (j - i) % WORD == 0 && clocks[i] % WORD == clocks[j] % WORD
    {
      IdsDiffer(counter, clocks, i, j);
    }
  }

  /** Such an id is safe to insert raw into the rendered record. */
  lemma UuidIsSafe(now: int, counter: nat)
    requires counter < WORD
    ensures SafeId(Uuid(now, counter))
  {
    var id, a, b := Uuid(now, counter), HexText(now % WORD, 16), HexText(counter, 16);
    forall k | 0 <= k < |id| ensures RawChar(id[k]) && id[k] as int < 0x80 {
      if k < 16 {
        assert id[k] == a[k] && IsHex(a[k]);
      } else if k > 16 {
        assert id[k] == b[k - 17] && IsHex(b[k - 17]);
      }
    }
    AsciiIsWellFormed(id);
  }
}
