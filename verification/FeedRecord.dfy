/**
 * One feed message as `POST /message` renders it: the id raw, name and text through Go's `%q`,
 * the timestamp through `%d`; and as encoding/json reads it back into a `FeedMessage`.
 */
module FeedRecord {
  import opened GoQuote
  import opened Json
  import opened Options
  import opened RawText
  import opened Text

  datatype FeedMessage = FeedMessage(id: string, clientName: string, msg: string, timestamp: int64)

  // ---- Rendering -----------------------------------------------------------------------

  /** Member texts start with the quote of their key. */
  predicate Quoted(text: string) {
    text != "" && text[0] == '"'
  }

  function NumberMember(key: string, digits: string): (text: string)
    ensures Quoted(text)
  {
    ("\"" + key + "\":") + (digits + "}")
  }

  function TimestampMember(r: FeedMessage): (text: string)
    ensures Quoted(text)
  {
    NumberMember("timestamp", IntText(r.timestamp))
  }

  function StringMember(key: string, body: string, more: string): (text: string)
    ensures Quoted(text)
  {
    ("\"" + key + "\":\"") + ((body + "\"") + ("," + more))
  }

  /** {"id":"%s","client-name":%q,"msg":%q,"timestamp":%d} */
  function Render(r: FeedMessage): string {
    "{" + StringMember("id", r.id,
            StringMember("client-name", QuoteBody(r.clientName),
              StringMember("msg", QuoteBody(r.msg), TimestampMember(r))))
  }

  // ---- What survives the rendering ------------------------------------------------------

  predicate Safe(r: FeedMessage) {
    SafeId(r.id) && SafeText(r.clientName) && SafeText(r.msg)
  }

  /** The rendering is an object, although an id that is not UTF-8 comes back repaired. */
  predicate Readable(r: FeedMessage) {
    Plain(r.id) && SafeText(r.clientName) && SafeText(r.msg)
  }

  /** The message that a reader makes of the rendering. */
  function AsRead(r: FeedMessage): FeedMessage {
    r.(id := Repair(r.id))
  }

  /** Safe messages are those that are readable and come back as they were. */
  lemma SafeIsUnchanged(r: FeedMessage)
    ensures Safe(r) <==> Readable(r) && AsRead(r) == r
  {
    if SafeId(r.id) {
      RepairIdle(r.id);
    } else if Plain(r.id) {
      AtWhole(r.id + "\"");
      PlainString(r.id + "\"", 0, r.id);
      RawReadsBack(r.id + "\"", 0, r.id);
    }
  }

  /** The JSON object that r stands for. */
  function ToJson(r: FeedMessage): Json {
    Obj(Members(r))
  }

  function Members(r: FeedMessage): seq<(string, Json)> {
    [("id", Str(r.id))] + FromName(r)
  }

  function FromName(r: FeedMessage): seq<(string, Json)> {
    [("client-name", Str(r.clientName))] + FromMsg(r)
  }

  function FromMsg(r: FeedMessage): seq<(string, Json)> {
    [("msg", Str(r.msg))] + FromTime(r)
  }

  function FromTime(r: FeedMessage): seq<(string, Json)> {
    [("timestamp", Number(IntText(r.timestamp)))]
  }

  // ---- encoding/json into the FeedMessage struct ----------------------------------------

  function Lower(c: char): char {
    if 'A' <= c <= 'Z' then c + ('a' - 'A') else c
  }

  function LowerText(s: string): string {
    seq(|s|, i requires 0 <= i < |s| => Lower(s[i]))
  }

  /** Object keys match the struct tags without regard to case. */
  predicate IsKey(key: string, tag: string) {
    LowerText(key) == tag
  }

  /** One member: null and unknown keys change nothing, a value of the wrong type is an error. */
  function SetField(m: FeedMessage, key: string, value: Json): Option<FeedMessage> {
    if value.Null? then Some(m)
    else if IsKey(key, "id") then if value.Str? then Some(m.(id := value.text)) else None
    else if IsKey(key, "client-name") then if value.Str? then Some(m.(clientName := value.text)) else None
    else if IsKey(key, "msg") then if value.Str? then Some(m.(msg := value.text)) else None
    else if IsKey(key, "timestamp") then
      if value.Number? && IsDecimal(value.text) && INT64_MIN <= IntValue(value.text) <= INT64_MAX
      then Some(m.(timestamp := IntValue(value.text)))
      else None
    else Some(m)
  }

  function SetFields(m: FeedMessage, members: seq<(string, Json)>): Option<FeedMessage>
    decreases members
  {
    if members == [] then Some(m)
    else
      match SetField(m, members[0].0, members[0].1)
      case None => None
      case Some(m') => SetFields(m', members[1..])
  }

  function Unmarshal(line: string): Option<FeedMessage> {
    match Parse(line)
    case None => None
    case Some(Null) => Some(FeedMessage("", "", "", 0))
    case Some(Obj(members)) => SetFields(FeedMessage("", "", "", 0), members)
    case Some(_) => None
  }

  // ---- Records there and back --------------------------------------------------------------

  lemma NoSpace(s: string, i: nat)
    requires i < |s| && s[i] !in " \t\n\r"
    ensures SkipSpace(s, i) == i
  {}

  lemma {:induction false} DigitsToEnd(t: string, i: nat)
    requires i <= |t| && forall k :: i <= k < |t| ==> IsDigit(t[k])
    ensures DigitsEnd(t, i) == |t|
    decreases |t| - i
  {
    if i < |t| {
      DigitsToEnd(t, i + 1);
    }
  }

  lemma DecimalIsNumber(t: string)
    requires IsDecimal(t)
    ensures IsNumber(t) && forall k :: 0 <= k < |t| ==> IsNumberChar(t[k])
  {
    if t[0] == '-' {
      forall k | 1 <= k < |t| ensures IsDigit(t[k]) {
        assert t[k] == t[1..][k - 1];
      }
      assert t[1..][0] == t[1];
      DigitsToEnd(t, 1);
    } else {
      DigitsToEnd(t, 0);
    }
  }

  lemma {:induction false} NumberSpan(s: string, i: nat, j: nat)
    requires i <= j < |s| && !IsNumberChar(s[j]) && forall k :: i <= k < j ==> IsNumberChar(s[k])
    ensures NumberEnd(s, i) == j
    decreases j - i
  {
    if i < j {
      NumberSpan(s, i + 1, j);
    }
  }

  lemma ScalarNumber(s: string, i: nat)
    requires i < |s| && (s[i] == '-' || IsDigit(s[i]))
    ensures ParseValue(s, i) == var j := NumberEnd(s, i); if IsNumber(s[i..j]) then Good(Number(s[i..j]), j) else Bad
  {
    FirstOfLiteral(s, i);
  }

  lemma DecimalValue(s: string, i: nat, t: string)
    requires IsDecimal(t) && At(s, i, t + "}")
    ensures i + |t| < |s| && s[i + |t|] == '}' && s[i] !in " \t\n\r"
    ensures ParseValue(s, i) == Good(Number(t), i + |t|)
  {
    AtSplit(s, i, t, "}");
    AtIndex(s, i + |t|, "}", 0);
    TokenValue(s, i, t);
    NoSpaceFirst(s, i, t);
  }

  lemma NoSpaceFirst(s: string, i: nat, t: string)
    requires IsDecimal(t) && At(s, i, t)
    ensures s[i] !in " \t\n\r"
  {
    DecimalIsNumber(t);
    AtIndex(s, i, t, 0);
  }

  lemma TokenValue(s: string, i: nat, t: string)
    requires IsDecimal(t) && At(s, i, t) && i + |t| < |s| && !IsNumberChar(s[i + |t|])
    ensures ParseValue(s, i) == Good(Number(t), i + |t|)
  {
    DecimalIsNumber(t);
    forall k | i <= k < i + |t| ensures s[k] == t[k - i] && IsNumberChar(s[k]) {
      AtIndex(s, i, t, k - i);
    }
    NumberSpan(s, i, i + |t|);
    ScalarNumber(s, i);
    assert s[i..i + |t|] == t;
  }

  predicate IsTag(key: string) {
    key == "id" || key == "client-name" || key == "msg" || key == "timestamp"
  }

  lemma TagsAreSafe(key: string)
    requires IsTag(key)
    ensures SafeId(key)
  {
    assert forall k :: 0 <= k < |key| ==> RawChar(key[k]) && key[k] as int < 0x80;
    AsciiIsWellFormed(key);
  }

  lemma KeyString(s: string, i: nat, key: string)
    requires IsTag(key) && At(s, i, "\"" + key + "\":")
    ensures i + |key| + 2 < |s| && s[i] == '"' && s[i + |key| + 2] == ':'
    ensures ParseString(s, i + 1) == Good(key, i + |key| + 2)
  {
    var w := "\"" + key + "\":";
    AtIndex(s, i, w, 0);
    AtIndex(s, i, w, |key| + 2);
    assert w == "\"" + (key + "\":");
    AtSplit(s, i, "\"", key + "\":");
    assert key + "\":" == (key + "\"") + ":";
    AtSplit(s, i + 1, key + "\"", ":");
    TagsAreSafe(key);
    RawReadsBack(s, i + 1, key);
  }

  /** "key": parses to the key, and the value starts right after the colon. */
  lemma KeyPart(s: string, i: nat, key: string)
    requires IsTag(key) && At(s, i, "\"" + key + "\":") && i + |key| + 3 < |s| && s[i + |key| + 3] !in " \t\n\r"
    ensures ParseKey(s, i) == Good(key, i + |key| + 3)
  {
    hide ParseString, At;
    KeyString(s, i, key);
    NoSpace(s, i + |key| + 2);
    NoSpace(s, i + |key| + 3);
  }

  lemma LastMember(s: string, i: nat, m: (string, Json), j: nat)
    requires i <= |s| && ParseMember(s, i) == Good(m, j) && j < |s| && s[j] == '}'
    ensures ParseMembers(s, i) == Good([m], j + 1)
  {
    NoSpace(s, j);
  }

  lemma NextMember(s: string, i: nat, m: (string, Json), j: nat)
    requires i <= |s| && ParseMember(s, i) == Good(m, j) && j + 1 < |s| && s[j] == ',' && s[j + 1] == '"'
    ensures var r := ParseMembers(s, j + 1);
            ParseMembers(s, i) == if r.Good? then Good([m] + r.value, r.next) else Bad
  {
    hide ParseMember;
    NoSpace(s, j);
    NoSpace(s, j + 1);
  }

  lemma FirstMember(s: string, i: nat)
    requires i <= |s| && ParseMembers(s, i).Good?
    ensures ParseMember(s, i).Good? && ParseMembers(s, i).value != [] && ParseMembers(s, i).value[0] == ParseMember(s, i).value
  {}

  lemma KeyThenDigits(s: string, i: nat, key: string, digits: string) returns (v: nat)
    requires At(s, i, NumberMember(key, digits))
    ensures v == i + |key| + 3 && v + |digits| + 1 == i + |NumberMember(key, digits)|
    ensures At(s, i, "\"" + key + "\":") && At(s, v, digits + "}")
  {
    v := i + |key| + 3;
    AtSplit(s, i, "\"" + key + "\":", digits + "}");
  }

  /** The key, the digits and the closing brace of a last member. */
  lemma NumberParts(s: string, i: nat, key: string, digits: string) returns (v: nat, e: nat)
    requires IsTag(key) && IsDecimal(digits) && At(s, i, NumberMember(key, digits))
    ensures i <= v <= e < |s| && e + 1 == i + |NumberMember(key, digits)|
    ensures ParseKey(s, i) == Good(key, v) && ParseValue(s, v) == Good(Number(digits), e) && s[e] == '}'
  {
    v := KeyThenDigits(s, i, key, digits);
    e := v + |digits|;
    DecimalValue(s, v, digits);
    KeyPart(s, i, key);
  }

  lemma NumberMembers(s: string, i: nat, key: string, digits: string)
    requires IsTag(key) && IsDecimal(digits) && At(s, i, NumberMember(key, digits))
    ensures ParseMembers(s, i) == Good([(key, Number(digits))], i + |NumberMember(key, digits)|)
  {
    var v, e := NumberParts(s, i, key, digits);
    LastNumber(s, i, key, digits, v, e);
  }

  lemma LastNumber(s: string, i: nat, key: string, digits: string, v: nat, e: nat)
    requires i <= |s| && ParseKey(s, i) == Good(key, v) && v <= |s| && ParseValue(s, v) == Good(Number(digits), e)
    requires e < |s| && s[e] == '}'
    ensures ParseMembers(s, i) == Good([(key, Number(digits))], e + 1)
  {
    MemberOf(s, i, key, v);
    LastMember(s, i, (key, Number(digits)), e);
  }

  lemma TimestampMembers(s: string, i: nat, r: FeedMessage)
    requires At(s, i, TimestampMember(r))
    ensures ParseMembers(s, i) == Good(FromTime(r), i + |TimestampMember(r)|)
  {
    IntTextRoundTrip(r.timestamp);
    NumberMembers(s, i, "timestamp", IntText(r.timestamp));
  }

  lemma KeyThenQuote(s: string, i: nat, key: string, body: string)
    requires At(s, i, ("\"" + key + "\":\"") + body)
    ensures i + |key| + 4 <= |s| && At(s, i + |key| + 4, body)
    ensures At(s, i, "\"" + key + "\":") && s[i + |key| + 3] == '"'
  {
    var head := "\"" + key + "\":\"";
    AtSplit(s, i, head, body);
    assert head == ("\"" + key + "\":") + "\"";
    AtSplit(s, i, "\"" + key + "\":", "\"");
    AtIndex(s, i + |key| + 3, "\"", 0);
  }

  lemma StringValue(s: string, i: nat)
    requires i < |s| && s[i] == '"'
    ensures var r := ParseString(s, i + 1);
            ParseValue(s, i) == if r.Good? then Good(Str(r.value), r.next) else Bad
    ensures s[i] !in " \t\n\r"
  {}

  lemma MemberOf(s: string, i: nat, key: string, v: nat)
    requires i <= |s| && ParseKey(s, i) == Good(key, v)
    ensures var r := ParseValue(s, v);
            ParseMember(s, i) == if r.Good? then Good((key, r.value), r.next) else Bad
  {}

  /** A string member's key is followed by the string. */
  lemma StringAfterKey(s: string, i: nat, key: string, v: nat)
    requires i <= |s| && ParseKey(s, i) == Good(key, v) && v < |s| && s[v] == '"'
    ensures var r := ParseString(s, v + 1);
            ParseMember(s, i) == if r.Good? then Good((key, Str(r.value)), r.next) else Bad
  {
    MemberOf(s, i, key, v);
    StringValue(s, v);
  }

  lemma StringPart(s: string, i: nat, key: string, body: string)
    requires IsTag(key) && At(s, i, ("\"" + key + "\":\"") + body)
    ensures i + |key| + 4 <= |s| && At(s, i + |key| + 4, body)
    ensures var r := ParseString(s, i + |key| + 4);
            ParseMember(s, i) == if r.Good? then Good((key, Str(r.value)), r.next) else Bad
  {
    KeyThenQuote(s, i, key, body);
    KeyPart(s, i, key);
    StringAfterKey(s, i, key, i + |key| + 3);
  }

  /** Where the parts of a string member stand. */
  lemma StringMemberParts(s: string, v: nat, body: string, more: string)
    requires At(s, v, (body + "\"") + ("," + more)) && Quoted(more)
    ensures v + |body| + 2 < |s| && At(s, v, body + "\"") && At(s, v + |body| + 2, more)
    ensures s[v + |body| + 1] == ',' && s[v + |body| + 2] == '"'
  {
    AtSplit(s, v, body + "\"", "," + more);
    AtSplit(s, v + |body| + 1, ",", more);
    AtIndex(s, v + |body| + 1, ",", 0);
    AtIndex(s, v + |body| + 2, more, 0);
  }

  /** What a string member, its string from v to e, and the members after it parse to. */
  predicate MemberThenMore(s: string, i: nat, key: string, v: nat, e: nat) {
    && i <= |s| && v <= |s| && e < |s|
    && (ParseMembers(s, i).Good? ==>
          && ParseString(s, v).Good?
          && ParseMembers(s, i).value != [] && ParseMembers(s, i).value[0] == (key, Str(ParseString(s, v).value)))
    && (ParseString(s, v).Good? && ParseString(s, v).next == e ==>
          var r := ParseMembers(s, e + 1);
          ParseMembers(s, i) == if r.Good? then Good([(key, Str(ParseString(s, v).value))] + r.value, r.next) else Bad)
  }

  /** Where the string ends at e when its body holds no premature quote. */
  lemma StringMembers(s: string, i: nat, key: string, body: string, more: string)
    requires IsTag(key) && At(s, i, StringMember(key, body, more)) && Quoted(more)
    ensures var v := i + |key| + 4; var e := v + |body| + 1;
            && e + 1 <= |s| && At(s, v, body + "\"") && At(s, e + 1, more)
            && i + |StringMember(key, body, more)| == e + 1 + |more|
            && MemberThenMore(s, i, key, v, e)
  {
    hide ParseString, ParseMember, At;
    var v := i + |key| + 4;
    StringPart(s, i, key, (body + "\"") + ("," + more));
    StringMemberParts(s, v, body, more);
    if ParseMembers(s, i).Good? {
      FirstMember(s, i);
    }
    if ParseString(s, v).Good? && ParseString(s, v).next == v + |body| + 1 {
      NextMember(s, i, (key, Str(ParseString(s, v).value)), v + |body| + 1);
    }
  }

  function MsgMembers(r: FeedMessage): (text: string)
    ensures Quoted(text)
  {
    StringMember("msg", QuoteBody(r.msg), TimestampMember(r))
  }

  function NameMembers(r: FeedMessage): (text: string)
    ensures Quoted(text)
  {
    StringMember("client-name", QuoteBody(r.clientName), MsgMembers(r))
  }

  lemma WhereMoreStands(s: string, i: nat, key: string, body: string, more: string)
    requires IsTag(key) && At(s, i, StringMember(key, body, more)) && Quoted(more)
    ensures At(s, i + |key| + |body| + 6, more)
  {
    StringMembers(s, i, key, body, more);
  }

  /**
   * A string member whose string parses to `text` when `safe`, before members that parse to ms
   * when `ok`.
   */
  lemma BodyThenMore(s: string, i: nat, key: string, text: string, safe: bool, body: string,
                     more: string, ms: seq<(string, Json)>, ok: bool)
    requires IsTag(key) && At(s, i, StringMember(key, body, more)) && Quoted(more)
    requires var v := i + |key| + 4;
             v <= |s| && ParseString(s, v) == if safe then Good(text, v + |body| + 1) else Bad
    requires var k := i + |key| + |body| + 6;
             k <= |s| && ParseMembers(s, k) == if ok then Good(ms, k + |more|) else Bad
    ensures ParseMembers(s, i) == if safe && ok then Good([(key, Str(text))] + ms, i + |StringMember(key, body, more)|) else Bad
  {
    StringMembers(s, i, key, body, more);
  }

  /** A `%q` member before more members, which parse to ms when `ok` and not at all otherwise. */
  lemma QuotedThenMore(s: string, i: nat, key: string, text: string, body: string,
                       more: string, ms: seq<(string, Json)>, ok: bool)
    requires body == QuoteBody(text)
    requires IsTag(key) && At(s, i, StringMember(key, body, more)) && Quoted(more)
    requires var k := i + |key| + |body| + 6;
             k <= |s| && ParseMembers(s, k) == if ok then Good(ms, k + |more|) else Bad
    ensures ParseMembers(s, i) == if SafeText(text) && ok
                                  then Good([(key, Str(text))] + ms, i + |StringMember(key, body, more)|) else Bad
  {
    hide QuoteBody, SafeText;
    QuotedAfterKey(s, i, key, text, body, more);
    BodyThenMore(s, i, key, text, SafeText(text), body, more, ms, ok);
  }

  lemma QuotedAfterKey(s: string, i: nat, key: string, text: string, body: string, more: string)
    requires body == QuoteBody(text)
    requires IsTag(key) && At(s, i, StringMember(key, body, more)) && Quoted(more)
    ensures var v := i + |key| + 4;
            v <= |s| && ParseString(s, v) == if SafeText(text) then Good(text, v + |body| + 1) else Bad
  {
    hide QuoteBody, SafeText;
    StringMembers(s, i, key, body, more);
    QuotedString(s, i + |key| + 4, text);
  }

  lemma ParseMsgMembers(s: string, i: nat, r: FeedMessage)
    requires At(s, i, MsgMembers(r))
    ensures ParseMembers(s, i) == if SafeText(r.msg) then Good(FromMsg(r), i + |MsgMembers(r)|) else Bad
  {
    hide QuoteBody, SafeText;
    var q, more := QuoteBody(r.msg), TimestampMember(r);
    WhereMoreStands(s, i, "msg", q, more);
    TimestampMembers(s, i + 9 + |q|, r);
    QuotedThenMore(s, i, "msg", r.msg, q, more, FromTime(r), true);
  }

  lemma ParseNameMembers(s: string, i: nat, r: FeedMessage)
    requires At(s, i, NameMembers(r))
    ensures ParseMembers(s, i) == if SafeText(r.clientName) && SafeText(r.msg)
                                  then Good(FromName(r), i + |NameMembers(r)|) else Bad
  {
    hide QuoteBody, SafeText;
    var q, more := QuoteBody(r.clientName), MsgMembers(r);
    WhereMoreStands(s, i, "client-name", q, more);
    ParseMsgMembers(s, i + 17 + |q|, r);
    QuotedThenMore(s, i, "client-name", r.clientName, q, more, FromMsg(r), SafeText(r.msg));
  }

  /** The id member: a plain id parses to its repair, and only a safe one to itself. */
  lemma IdThenMore(s: string, i: nat, id: string, more: string)
    requires At(s, i, StringMember("id", id, more)) && Quoted(more)
    ensures var k := i + 8 + |id|;
            && At(s, k, more) && i + |StringMember("id", id, more)| == k + |more|
            && (ParseMembers(s, i).Good? && ParseMembers(s, i).value[0] == ("id", Str(id)) ==> SafeId(id))
            && (Plain(id) ==>
                  var r := ParseMembers(s, k);
                  ParseMembers(s, i) == if r.Good? then Good([("id", Str(Repair(id)))] + r.value, r.next) else Bad)
  {
    hide SafeId, Plain, Repair, ParseString, ParseMembers, At, StringMember;
    StringMembers(s, i, "id", id, more);
    RawReadsBack(s, i + 6, id);
    if Plain(id) {
      PlainString(s, i + 6, id);
    }
  }

  /** The members from the id on, given what the later ones (`more`) parse to. */
  lemma RecordMembers(s: string, i: nat, r: FeedMessage, more: string, ms: seq<(string, Json)>)
    requires At(s, i, StringMember("id", r.id, more)) && Quoted(more)
    requires MoreParsed(s, i + 8 + |r.id|, r, more, ms)
    ensures Plain(r.id) ==>
              ParseMembers(s, i) == if Readable(r)
                                    then Good([("id", Str(Repair(r.id)))] + ms, i + |StringMember("id", r.id, more)|)
                                    else Bad
    ensures ParseMembers(s, i).Good? && ParseMembers(s, i).value == [("id", Str(r.id))] + ms ==> Safe(r)
  {
    IdThenMore(s, i, r.id, more);
  }

  /** The members after the id parse, to `ms`, exactly when name and text are safe. */
  predicate MoreParsed(s: string, k: nat, r: FeedMessage, more: string, ms: seq<(string, Json)>) {
    k <= |s| && ParseMembers(s, k) == if SafeText(r.clientName) && SafeText(r.msg) then Good(ms, k + |more|) else Bad
  }

  lemma ObjectValue(s: string, i: nat, members: string)
    requires At(s, i, "{" + members) && Quoted(members)
    ensures At(s, i + 1, members) && i < |s| && s[i] == '{'
    ensures var r := ParseMembers(s, i + 1);
            ParseValue(s, i) == if r.Good? then Good(Obj(r.value), r.next) else Bad
  {
    AtSplit(s, i, "{", members);
    AtIndex(s, i, "{", 0);
    AtIndex(s, i + 1, members, 0);
    NoSpace(s, i + 1);
  }

  /** A record's text, given what the members after the id parse to. */
  lemma RecordFrom(s: string, i: nat, r: FeedMessage, more: string, ms: seq<(string, Json)>)
    requires At(s, i, "{" + StringMember("id", r.id, more)) && Quoted(more)
    requires MoreParsed(s, i + 9 + |r.id|, r, more, ms)
    ensures i < |s| && s[i] == '{'
    ensures Plain(r.id) ==>
              ParseValue(s, i) == if Readable(r)
                                  then Good(Obj([("id", Str(Repair(r.id)))] + ms), i + 1 + |StringMember("id", r.id, more)|)
                                  else Bad
    ensures ParseValue(s, i).Good? && ParseValue(s, i).value == Obj([("id", Str(r.id))] + ms) ==> Safe(r)
  {
    ObjectValue(s, i, StringMember("id", r.id, more));
    RecordMembers(s, i + 1, r, more, ms);
  }

  lemma RenderShape(r: FeedMessage)
    ensures Render(r) == "{" + StringMember("id", r.id, NameMembers(r))
    ensures Quoted(NameMembers(r))
  {}

  lemma WhereNamesStand(s: string, i: nat, id: string, more: string)
    requires At(s, i, "{" + StringMember("id", id, more)) && Quoted(more)
    ensures At(s, i + 9 + |id|, more)
  {
    ObjectValue(s, i, StringMember("id", id, more));
    IdThenMore(s, i + 1, id, more);
  }

  lemma RecordParts(s: string, i: nat, r: FeedMessage) returns (more: string)
    requires At(s, i, Render(r))
    ensures Quoted(more) && Render(r) == "{" + StringMember("id", r.id, more)
    ensures MoreParsed(s, i + 9 + |r.id|, r, more, FromName(r))
  {
    more := NameMembers(r);
    RenderShape(r);
    WhereNamesStand(s, i, r.id, more);
    ParseNameMembers(s, i + 9 + |r.id|, r);
  }

  /**
   * A rendered record with a plain id, wherever it stands, parses up to its closing brace when it is
   * readable and not at all otherwise; and to its own object exactly when it is safe.
   */
  lemma RecordValue(s: string, i: nat, r: FeedMessage)
    requires At(s, i, Render(r))
    ensures i < |s| && s[i] == '{'
    ensures Plain(r.id) ==>
              ParseValue(s, i) == if Readable(r) then Good(ToJson(AsRead(r)), i + |Render(r)|) else Bad
    ensures ParseValue(s, i).Good? && ParseValue(s, i).value == ToJson(r) ==> Safe(r)
  {
    var more := RecordParts(s, i, r);
    RecordFrom(s, i, r, more, FromName(r));
  }

  lemma KeysMatch()
    ensures IsKey("id", "id")
    ensures IsKey("client-name", "client-name") && !IsKey("client-name", "id")
    ensures IsKey("msg", "msg") && !IsKey("msg", "id") && !IsKey("msg", "client-name")
    ensures IsKey("timestamp", "timestamp") && !IsKey("timestamp", "id")
    ensures !IsKey("timestamp", "client-name") && !IsKey("timestamp", "msg")
  {
    assert LowerText("id") == "id";
    assert LowerText("client-name") == "client-name" && |"client-name"| != |"id"|;
    assert LowerText("msg") == "msg" && |"msg"| != |"id"| && |"msg"| != |"client-name"|;
    assert LowerText("timestamp") == "timestamp";
    assert |"timestamp"| != |"id"| && |"timestamp"| != |"msg"| && |"timestamp"| != |"client-name"|;
  }

  lemma DecodeMembers(r: FeedMessage)
    ensures SetFields(FeedMessage("", "", "", 0), Members(r)) == Some(r)
  {
    KeysMatch();
    IntTextRoundTrip(r.timestamp);
    var zero := FeedMessage("", "", "", 0);
    var m1 := zero.(id := r.id);
    var m2 := m1.(clientName := r.clientName);
    var m3 := m2.(msg := r.msg);
    assert FromTime(r)[1..] == [];
    SetFirst(m3, "timestamp", Number(IntText(r.timestamp)), []);
    assert FromTime(r) == [("timestamp", Number(IntText(r.timestamp)))] + [];
    SetFirst(m2, "msg", Str(r.msg), FromTime(r));
    SetFirst(m1, "client-name", Str(r.clientName), FromMsg(r));
    SetFirst(zero, "id", Str(r.id), FromName(r));
  }

  lemma SetFirst(m: FeedMessage, key: string, value: Json, more: seq<(string, Json)>)
    ensures SetFields(m, [(key, value)] + more) ==
            if SetField(m, key, value).Some? then SetFields(SetField(m, key, value).value, more) else None
  {
    assert ([(key, value)] + more)[1..] == more;
  }

  /** A stored line of a readable record is read back as that record with its id repaired. */
  lemma UnmarshalRendered(r: FeedMessage)
    requires Readable(r)
    ensures Unmarshal(Render(r)) == Some(AsRead(r))
  {
    hide SetFields, Render, Members, Plain, SafeText;
    AtWhole(Render(r));
    RecordValue(Render(r), 0, r);
    AtIndex(Render(r), 0, Render(r), 0);
    NoSpace(Render(r), 0);
    DecodeMembers(AsRead(r));
  }

  /** Of a record with a plain id, no torn line is read as any record, nor the whole line if it is not readable. */
  lemma UnmarshalTorn(r: FeedMessage, n: nat)
    requires Plain(r.id) && 0 < n <= |Render(r)| && (n == |Render(r)| ==> !Readable(r))
    ensures Unmarshal(Render(r)[..n]).None?
  {
    hide Render, SetFields, Plain, AsRead, ToJson;
    AtWhole(Render(r));
    RecordValue(Render(r), 0, r);
    if Readable(r) {
      TornObjectInvalid(Render(r), n);
    } else {
      NoObjectWithin(Render(r), n);
    }
  }
}
