/** The wire format of the Redis client: the incremental RESP parser, the command
    encoder, and the format a server writes its replies in (RESP2: simple strings,
    errors, integers, bulk strings and arrays).  A byte is an integer below 256;
    strings are their bytes. */
module Resp {
  import opened Wrappers

  type Byte = b: int | 0 <= b < 256

  const CR: Byte := 13
  const LF: Byte := 10
  const PLUS: Byte := 43
  const MINUS: Byte := 45
  const COLON: Byte := 58
  const DOLLAR: Byte := 36
  const STAR: Byte := 42
  const ZERO: Byte := 48
  const CRLF: seq<Byte> := [CR, LF]

  /** What `Number(line)` gives on the lines of the protocol. */
  datatype JsNumber = Int(n: int) | NaN

  datatype RedisValue = Str(bytes: seq<Byte>) | Num(number: JsNumber) | Null | Arr(items: seq<RedisValue>)

  datatype RespError = ServerError(line: seq<Byte>) | InvalidBulk | UnsupportedPrefix(prefix: Byte)

  datatype Outcome = Good(value: RedisValue) | Bad(error: RespError)

  datatype Parsed = Parsed(value: Outcome, next: nat)

  // ---------- numbers ----------

  predicate IsDigit(b: Byte) {
    ZERO <= b < ZERO + 10
  }

  predicate AllDigits(line: seq<Byte>) {
    forall i :: 0 <= i < |line| ==> IsDigit(line[i])
  }

  function DigitsValue(line: seq<Byte>): nat
    requires AllDigits(line)
  {
    if line == [] then 0 else DigitsValue(line[..|line| - 1]) * 10 + (line[|line| - 1] - ZERO)
  }

  function ToNumber(line: seq<Byte>): JsNumber {
    if line == [] then Int(0)
    else if AllDigits(line) then Int(DigitsValue(line))
    else if |line| > 1 && line[0] == MINUS && AllDigits(line[1..]) then Int(0 - DigitsValue(line[1..]))
    else if |line| > 1 && line[0] == PLUS && AllDigits(line[1..]) then Int(DigitsValue(line[1..]))
    else NaN
  }

  function Decimal(n: nat): seq<Byte> {
    if n < 10 then [ZERO + n] else Decimal(n / 10) + [ZERO + n % 10]
  }

  function Signed(n: int): seq<Byte> {
    if n < 0 then [MINUS] + Decimal(-n) else Decimal(n)
  }

  lemma {:induction false} DecimalValue(n: nat)
    ensures Decimal(n) != [] && AllDigits(Decimal(n)) && DigitsValue(Decimal(n)) == n
  {
    if n < 10 {
      assert Decimal(n)[..0] == [];
      assert DigitsValue([]) == 0;
    } else {
      DecimalValue(n / 10);
      var d := Decimal(n);
      assert d[..|d| - 1] == Decimal(n / 10);
    }
  }

  lemma ToNumberSigned(n: int)
    ensures ToNumber(Signed(n)) == Int(n) && CR !in Signed(n)
  {
    DecimalValue(if n < 0 then -n else n);
    if n < 0 {
      assert Signed(n)[1..] == Decimal(-n);
      assert !IsDigit(Signed(n)[0]);
    }
  }

  /** The length line of a null reply. */
  const MINUS_ONE: seq<Byte> := [MINUS, ZERO + 1]

  lemma MinusOneIsNumber()
    ensures ToNumber(MINUS_ONE) == Int(-1) && CR !in MINUS_ONE
  {
    ToNumberSigned(-1);
    assert Signed(-1) == MINUS_ONE;
  }

  // ---------- the parser ----------

  predicate CrlfAt(buffer: seq<Byte>, i: nat) {
    i + 1 < |buffer| && buffer[i] == CR && buffer[i + 1] == LF
  }

  /** `buffer.indexOf('\r\n', from)`. */
  function IndexCrlf(buffer: seq<Byte>, from: nat): (r: Option<nat>)
    ensures r.Some? ==> from <= r.value && CrlfAt(buffer, r.value)
    ensures forall i: nat :: CrlfAt(buffer, i) && from <= i ==> r.Some? && r.value <= i
    decreases |buffer| - from
  {
    if from + 1 >= |buffer| then None
    else if CrlfAt(buffer, from) then Some(from)
    else IndexCrlf(buffer, from + 1)
  }

  function ParseResp(buffer: seq<Byte>, offset: nat): (r: Option<Parsed>)
    ensures r.Some? ==> offset < r.value.next <= |buffer|
    decreases |buffer| - offset, 0
  {
    if offset >= |buffer| then None
    else
      var prefix := buffer[offset];
      match IndexCrlf(buffer, offset)
      case None => None
      case Some(lineEnd) =>
        var line := if lineEnd > offset then buffer[offset + 1..lineEnd] else [];
        ParseFrame(buffer, prefix, line, lineEnd + 2)
  }

  /** The reply whose first line is `line` and whose body, if it has one, starts at `body`. */
  function ParseFrame(buffer: seq<Byte>, prefix: Byte, line: seq<Byte>, body: nat): (r: Option<Parsed>)
    requires body <= |buffer|
    ensures r.Some? ==> body <= r.value.next <= |buffer|
    decreases |buffer| - body, 2
  {
    if prefix == PLUS then Some(Parsed(Good(Str(line)), body))
    else if prefix == COLON then Some(Parsed(Good(Num(ToNumber(line))), body))
    else if prefix == MINUS then Some(Parsed(Bad(ServerError(line)), body))
    else if prefix == DOLLAR then ParseBulk(buffer, body, ToNumber(line))
    else if prefix == STAR then
      if ToNumber(line) == Int(-1) then Some(Parsed(Good(Null), body))
      else ParseElements(buffer, body, Count(ToNumber(line)), [])
    else Some(Parsed(Bad(UnsupportedPrefix(prefix)), body))
  }

  function ParseBulk(buffer: seq<Byte>, body: nat, length: JsNumber): (r: Option<Parsed>)
    requires body <= |buffer|
    ensures r.Some? ==> body <= r.value.next <= |buffer|
  {
    if length == Int(-1) then Some(Parsed(Good(Null), body))
    else if length == NaN || length.n < 0 then Some(Parsed(Bad(InvalidBulk), body))
    else if |buffer| < body + length.n + 2 then None
    else Some(Parsed(Good(Str(buffer[body..body + length.n])), body + length.n + 2))
  }

  /** How often `for (i = 0; i < count; i += 1)` runs. */
  function Count(count: JsNumber): nat {
    if count == NaN || count.n < 0 then 0 else count.n
  }

  /** The element loop: the first error ends the whole array, wherever it stands. */
  function ParseElements(buffer: seq<Byte>, cursor: nat, remaining: nat, values: seq<RedisValue>): (r: Option<Parsed>)
    requires cursor <= |buffer|
    ensures r.Some? ==> cursor <= r.value.next <= |buffer|
    decreases |buffer| - cursor, 1
  {
    if remaining == 0 then Some(Parsed(Good(Arr(values)), cursor))
    else
      match ParseResp(buffer, cursor)
      case None => None
      case Some(Parsed(Bad(e), next)) => Some(Parsed(Bad(e), next))
      case Some(Parsed(Good(v), next)) => ParseElements(buffer, next, remaining - 1, values + [v])
  }

  /** The parser as written, with its cursor loop. */
  method Parse(buffer: seq<Byte>, offset: nat) returns (r: Option<Parsed>)
    ensures r == ParseResp(buffer, offset)
    decreases |buffer| - offset
  {
    hide *;
    ParseStart(buffer, offset);
    if offset >= |buffer| {
      return None;
    }
    var prefix := buffer[offset];
    var found := IndexCrlf(buffer, offset);
    if found.None? {
      return None;
    }
    var lineEnd := found.value;
    var line := if lineEnd > offset then buffer[offset + 1..lineEnd] else [];
    FrameIs(buffer, prefix, line, lineEnd + 2);
    if prefix == PLUS || prefix == COLON || prefix == MINUS {
      var value := if prefix == COLON then Good(Num(ToNumber(line)))
                   else if prefix == MINUS then Bad(ServerError(line)) else Good(Str(line));
      return Some(Parsed(value, lineEnd + 2));
    }
    if prefix == DOLLAR {
      return ParseBulk(buffer, lineEnd + 2, ToNumber(line));
    }
    if prefix == STAR {
      var count := ToNumber(line);
      if count == Int(-1) {
        return Some(Parsed(Good(Null), lineEnd + 2));
      }
      var cursor, values := lineEnd + 2, [];
      var i := 0;
      while i < Count(count)
        invariant 0 <= i <= Count(count)
        invariant offset < cursor <= |buffer|
        invariant ParseResp(buffer, offset) == ParseElements(buffer, cursor, Count(count) - i, values)
      {
        ElementsAre(buffer, cursor, Count(count) - i, values);
        var parsed := Parse(buffer, cursor);
        if parsed.None? {
          return None;
        }
        if parsed.value.value.Bad? {
          return parsed;
        }
        values := values + [parsed.value.value.value];
        cursor := parsed.value.next;
        i := i + 1;
      }
      ElementsAre(buffer, cursor, 0, values);
      return Some(Parsed(Good(Arr(values)), cursor));
    }
    return Some(Parsed(Bad(UnsupportedPrefix(prefix)), lineEnd + 2));
  }

  lemma ParseStart(buffer: seq<Byte>, offset: nat)
    ensures offset >= |buffer| ==> ParseResp(buffer, offset) == None
    ensures offset < |buffer| ==>
              var found := IndexCrlf(buffer, offset);
              match found
              case None => ParseResp(buffer, offset) == None
              case Some(lineEnd) =>
                var line := if lineEnd > offset then buffer[offset + 1..lineEnd] else [];
                offset <= lineEnd && lineEnd + 2 <= |buffer| &&
                ParseResp(buffer, offset) == ParseFrame(buffer, buffer[offset], line, lineEnd + 2)
  {
    hide ParseFrame;
  }

  lemma FrameIs(buffer: seq<Byte>, prefix: Byte, line: seq<Byte>, body: nat)
    requires body <= |buffer|
    ensures PLUS != COLON && PLUS != MINUS && COLON != MINUS
    ensures ParseFrame(buffer, prefix, line, body) ==
            if prefix == PLUS then Some(Parsed(Good(Str(line)), body))
            else if prefix == COLON then Some(Parsed(Good(Num(ToNumber(line))), body))
            else if prefix == MINUS then Some(Parsed(Bad(ServerError(line)), body))
            else if prefix == DOLLAR then ParseBulk(buffer, body, ToNumber(line))
            else if prefix == STAR then
              if ToNumber(line) == Int(-1) then Some(Parsed(Good(Null), body))
              else ParseElements(buffer, body, Count(ToNumber(line)), [])
            else Some(Parsed(Bad(UnsupportedPrefix(prefix)), body))
  {
    hide ToNumber, ParseBulk, ParseElements, Count;
  }

  lemma ElementsAre(buffer: seq<Byte>, cursor: nat, remaining: nat, values: seq<RedisValue>)
    requires cursor <= |buffer|
    ensures remaining == 0 ==>
            ParseElements(buffer, cursor, remaining, values) == Some(Parsed(Good(Arr(values)), cursor))
    ensures remaining > 0 ==>
              ParseElements(buffer, cursor, remaining, values) ==
              match ParseResp(buffer, cursor)
              case None => None
              case Some(Parsed(Bad(e), next)) => Some(Parsed(Bad(e), next))
              case Some(Parsed(Good(v), next)) => ParseElements(buffer, next, remaining - 1, values + [v])
  {
    hide ParseResp;
  }

  // ---------- more bytes never change a parse ----------

  lemma {:induction false} IndexStable(buffer: seq<Byte>, longer: seq<Byte>, from: nat)
    requires buffer <= longer && IndexCrlf(buffer, from).Some?
    ensures IndexCrlf(longer, from) == IndexCrlf(buffer, from)
    decreases |buffer| - from
  {
    if !CrlfAt(buffer, from) {
      IndexStable(buffer, longer, from + 1);
    }
  }

  lemma {:induction false} ParseStable(buffer: seq<Byte>, longer: seq<Byte>, offset: nat)
    requires buffer <= longer && ParseResp(buffer, offset).Some?
    ensures ParseResp(longer, offset) == ParseResp(buffer, offset)
    decreases |buffer| - offset, 0
  {
    IndexStable(buffer, longer, offset);
    var lineEnd := IndexCrlf(buffer, offset).value;
    var line := if lineEnd > offset then buffer[offset + 1..lineEnd] else [];
    if lineEnd > offset {
      assert longer[offset + 1..lineEnd] == line;
    }
    FrameStable(buffer, longer, buffer[offset], line, lineEnd + 2);
  }

  lemma {:induction false} FrameStable(
    buffer: seq<Byte>, longer: seq<Byte>, prefix: Byte, line: seq<Byte>, body: nat)
    requires buffer <= longer && body <= |buffer|
    requires ParseFrame(buffer, prefix, line, body).Some?
    ensures ParseFrame(longer, prefix, line, body) == ParseFrame(buffer, prefix, line, body)
    decreases |buffer| - body, 2
  {
    var n := ToNumber(line);
    if prefix == DOLLAR && n.Int? && n.n >= 0 {
      assert longer[body..body + n.n] == buffer[body..body + n.n];
    } else if prefix == STAR && n != Int(-1) {
      ElementsStable(buffer, longer, body, Count(n), []);
    }
  }

  lemma {:induction false} ElementsStable(
    buffer: seq<Byte>, longer: seq<Byte>, cursor: nat, remaining: nat, values: seq<RedisValue>)
    requires buffer <= longer && cursor <= |buffer|
    requires ParseElements(buffer, cursor, remaining, values).Some?
    ensures ParseElements(longer, cursor, remaining, values) == ParseElements(buffer, cursor, remaining, values)
    decreases |buffer| - cursor, 1
  {
    if remaining > 0 {
      ParseStable(buffer, longer, cursor);
      var parsed := ParseResp(buffer, cursor).value;
      if parsed.value.Good? {
        ElementsStable(buffer, longer, parsed.next, remaining - 1, values + [parsed.value.value]);
      }
    }
  }

  // ---------- what a server writes ----------

  datatype Reply =
    | Simple(line: seq<Byte>)
    | Error(line: seq<Byte>)
    | Integer(n: int)
    | Bulk(data: seq<Byte>)
    | NullBulk
    | NullArray
    | Array(items: seq<Reply>)

  /** A first line: the prefix, the text and the line end. */
  function Line(prefix: Byte, text: seq<Byte>): (bytes: seq<Byte>)
    ensures |bytes| == |text| + 3
  {
    [prefix] + text + CRLF
  }

  function Serialize(reply: Reply): (bytes: seq<Byte>)
    ensures |bytes| > 0
    decreases reply, 1
  {
    match reply
    case Simple(line) => Line(PLUS, line)
    case Error(line) => Line(MINUS, line)
    case Integer(n) => Line(COLON, Signed(n))
    case Bulk(data) => Line(DOLLAR, Signed(|data|)) + (data + CRLF)
    case NullBulk => Line(DOLLAR, MINUS_ONE)
    case NullArray => Line(STAR, MINUS_ONE)
    case Array(items) => Line(STAR, Signed(|items|)) + SerializeAll(items)
  }

  function SerializeAll(replies: seq<Reply>): seq<Byte>
    decreases replies, 0
  {
    if replies == [] then [] else Serialize(replies[0]) + SerializeAll(replies[1..])
  }

  /** Lines carry no carriage return; everything else may hold any bytes. */
  predicate WellFormed(reply: Reply)
    decreases reply
  {
    match reply
    case Simple(line) => CR !in line
    case Error(line) => CR !in line
    case Array(items) => forall i :: 0 <= i < |items| ==> WellFormed(items[i])
    case _ => true
  }

  /** The value a reply stands for; an error anywhere in an array makes the whole array that error. */
  function Meaning(reply: Reply): Outcome
    decreases reply, 1
  {
    match reply
    case Simple(line) => Good(Str(line))
    case Error(line) => Bad(ServerError(line))
    case Integer(n) => Good(Num(Int(n)))
    case Bulk(data) => Good(Str(data))
    case NullBulk => Good(Null)
    case NullArray => Good(Null)
    case Array(items) => MeaningAll(items, [])
  }

  function MeaningAll(items: seq<Reply>, values: seq<RedisValue>): Outcome
    decreases items, 0
  {
    if items == [] then Good(Arr(values))
    else match Meaning(items[0])
      case Bad(e) => Bad(e)
      case Good(v) => MeaningAll(items[1..], values + [v])
  }

  /** An error is nowhere in the reply, or is the very last thing in it. */
  predicate ErrorOnlyLast(reply: Reply)
    decreases reply
  {
    match reply
    case Array(items) =>
      forall i :: 0 <= i < |items| ==>
        ErrorOnlyLast(items[i]) && (i < |items| - 1 ==> Meaning(items[i]).Good?)
    case _ => true
  }

  /** How many bytes of a serialised reply the parser consumes. */
  function Consumed(reply: Reply): nat
    decreases reply, 1
  {
    match reply
    case Array(items) => |Line(STAR, Signed(|items|))| + ConsumedAll(items)
    case _ => |Serialize(reply)|
  }

  function ConsumedAll(items: seq<Reply>): nat
    decreases items, 0
  {
    if items == [] then 0
    else if Meaning(items[0]).Bad? then Consumed(items[0])
    else Consumed(items[0]) + ConsumedAll(items[1..])
  }

  // ---------- parsing what a server wrote ----------

  lemma {:induction false} IndexAt(buffer: seq<Byte>, from: nat, lineEnd: nat)
    requires from <= lineEnd && lineEnd + 1 < |buffer| && buffer[lineEnd] == CR && buffer[lineEnd + 1] == LF
    requires forall i :: from <= i < lineEnd ==> buffer[i] != CR
    ensures IndexCrlf(buffer, from) == Some(lineEnd)
  {
    assert CrlfAt(buffer, lineEnd);
  }

  /** The bytes stand in the buffer at the offset. */
  ghost predicate At(buffer: seq<Byte>, offset: nat, bytes: seq<Byte>) {
    offset + |bytes| <= |buffer| && forall i :: 0 <= i < |bytes| ==> buffer[offset + i] == bytes[i]
  }

  lemma SplitAt(buffer: seq<Byte>, offset: nat, first: seq<Byte>, second: seq<Byte>)
    requires At(buffer, offset, first + second)
    ensures At(buffer, offset, first) && At(buffer, offset + |first|, second)
  {
    var whole := first + second;
    assert forall i :: 0 <= i < |first| ==> whole[i] == first[i];
    forall i | 0 <= i < |second| ensures buffer[offset + |first| + i] == second[i] {
      assert whole[|first| + i] == second[i];
      assert buffer[offset + (|first| + i)] == whole[|first| + i];
    }
  }

  lemma SliceAt(buffer: seq<Byte>, offset: nat, bytes: seq<Byte>)
    requires At(buffer, offset, bytes)
    ensures buffer[offset..offset + |bytes|] == bytes
  {
  }

  lemma AtMiddle(before: seq<Byte>, bytes: seq<Byte>, after: seq<Byte>)
    ensures At(before + bytes + after, |before|, bytes)
  {
  }

  lemma ParseHead(buffer: seq<Byte>, offset: nat, prefix: Byte, line: seq<Byte>)
    requires prefix != CR && CR !in line
    requires At(buffer, offset, Line(prefix, line))
    ensures ParseResp(buffer, offset) == ParseFrame(buffer, prefix, line, offset + |line| + 3)
  {
    hide ToNumber, ParseFrame;
    SplitAt(buffer, offset, [prefix] + line, CRLF);
    SplitAt(buffer, offset, [prefix], line);
    SliceAt(buffer, offset + 1, line);
    var lineEnd := offset + 1 + |line|;
    assert buffer[lineEnd + 0] == CRLF[0] && buffer[lineEnd + 1] == CRLF[1];
    assert buffer[offset + 0] == [prefix][0];
    forall i | offset <= i < lineEnd ensures buffer[i] != CR {
      if i > offset {
        assert buffer[offset + 1 + (i - offset - 1)] == line[i - offset - 1];
      }
    }
    IndexAt(buffer, offset, lineEnd);
  }

  lemma ParseBulkReply(buffer: seq<Byte>, offset: nat, data: seq<Byte>)
    requires At(buffer, offset, Serialize(Bulk(data)))
    ensures ParseResp(buffer, offset) == Some(Parsed(Good(Str(data)), offset + |Serialize(Bulk(data))|))
  {
    hide ToNumber, ParseResp, ParseElements, Signed;
    ToNumberSigned(|data|);
    var head := Line(DOLLAR, Signed(|data|));
    SplitAt(buffer, offset, head, data + CRLF);
    SplitAt(buffer, offset + |head|, data, CRLF);
    SliceAt(buffer, offset + |head|, data);
    ParseHead(buffer, offset, DOLLAR, Signed(|data|));
  }

  lemma ParseLineReply(buffer: seq<Byte>, offset: nat, reply: Reply)
    requires !reply.Bulk? && !reply.Array? && WellFormed(reply)
    requires At(buffer, offset, Serialize(reply))
    ensures ParseResp(buffer, offset) == Some(Parsed(Meaning(reply), offset + |Serialize(reply)|))
  {
    hide ParseResp, ParseElements, ToNumber, Signed, Line;
    match reply
    case Simple(line) => ParseHead(buffer, offset, PLUS, line);
    case Error(line) => ParseHead(buffer, offset, MINUS, line);
    case Integer(n) =>
      ToNumberSigned(n);
      ParseHead(buffer, offset, COLON, Signed(n));
    case NullBulk =>
      MinusOneIsNumber();
      ParseHead(buffer, offset, DOLLAR, MINUS_ONE);
    case NullArray =>
      MinusOneIsNumber();
      ParseHead(buffer, offset, STAR, MINUS_ONE);
  }

  lemma ParseArrayHead(buffer: seq<Byte>, offset: nat, items: seq<Reply>)
    requires At(buffer, offset, Serialize(Array(items)))
    ensures var body := offset + |Signed(|items|)| + 3;
            At(buffer, body, SerializeAll(items)) &&
            ParseResp(buffer, offset) == ParseElements(buffer, body, |items|, [])
  {
    hide ToNumber, ParseResp, ParseElements, ParseBulk, Signed, At, SerializeAll;
    ToNumberSigned(|items|);
    SplitAt(buffer, offset, Line(STAR, Signed(|items|)), SerializeAll(items));
    ParseHead(buffer, offset, STAR, Signed(|items|));
  }

  /** Where a well-formed reply stands in the buffer, the parser returns its meaning. */
  lemma {:induction false} ParseSerialized(buffer: seq<Byte>, offset: nat, reply: Reply)
    requires WellFormed(reply) && At(buffer, offset, Serialize(reply))
    ensures ParseResp(buffer, offset) == Some(Parsed(Meaning(reply), offset + Consumed(reply)))
    decreases reply, 1
  {
    hide ParseResp;
    match reply
    case Bulk(data) => ParseBulkReply(buffer, offset, data);
    case Array(items) =>
      ParseArrayHead(buffer, offset, items);
      ParseSerializedAll(buffer, offset + |Signed(|items|)| + 3, items, []);
    case _ => ParseLineReply(buffer, offset, reply);
  }

  lemma {:induction false} ParseSerializedAll(
    buffer: seq<Byte>, cursor: nat, items: seq<Reply>, values: seq<RedisValue>)
    requires forall i :: 0 <= i < |items| ==> WellFormed(items[i])
    requires At(buffer, cursor, SerializeAll(items))
    ensures ParseElements(buffer, cursor, |items|, values)
         == Some(Parsed(MeaningAll(items, values), cursor + ConsumedAll(items)))
    decreases items, 0
  {
    hide ParseResp;
    if items != [] {
      var first, others := items[0], items[1..];
      SplitAt(buffer, cursor, Serialize(first), SerializeAll(others));
      ParseSerialized(buffer, cursor, first);
      match Meaning(first)
      case Bad(_) =>
      case Good(v) =>
        ConsumedWhole(first);
        ParseSerializedAll(buffer, cursor + |Serialize(first)|, others, values + [v]);
    }
  }

  /** The parser consumes exactly the reply if and only if no error is followed by other elements. */
  lemma {:induction false} ConsumedWhole(reply: Reply)
    ensures Meaning(reply).Good? ==> ErrorOnlyLast(reply)
    ensures Consumed(reply) <= |Serialize(reply)|
    ensures Consumed(reply) == |Serialize(reply)| <==> ErrorOnlyLast(reply)
    decreases reply, 1
  {
    match reply
    case Array(items) => ConsumedWholeAll(items, []);
    case _ =>
  }

  lemma {:induction false} ConsumedWholeAll(items: seq<Reply>, values: seq<RedisValue>)
    ensures MeaningAll(items, values).Good? ==>
              forall i :: 0 <= i < |items| ==> ErrorOnlyLast(items[i]) && Meaning(items[i]).Good?
    ensures ConsumedAll(items) <= |SerializeAll(items)|
    ensures ConsumedAll(items) == |SerializeAll(items)| <==>
            forall i :: 0 <= i < |items| ==> ErrorOnlyLast(items[i]) && (i < |items| - 1 ==> Meaning(items[i]).Good?)
    decreases items, 0
  {
    if items != [] {
      ConsumedWhole(items[0]);
      match Meaning(items[0])
      case Bad(_) =>
        if |items| > 1 {
          assert |SerializeAll(items[1..])| > 0;
        }
      case Good(v) =>
        ConsumedWholeAll(items[1..], values + [v]);
        assert forall i :: 1 <= i < |items| ==> items[i] == items[1..][i - 1];
    }
  }

  lemma {:induction false} SerializeAppend(a: seq<Reply>, b: seq<Reply>)
    ensures SerializeAll(a + b) == SerializeAll(a) + SerializeAll(b)
  {
    hide Serialize;
    if a == [] {
      assert a + b == b;
    } else {
      SerializeAppend(a[1..], b);
      assert (a + b)[1..] == a[1..] + b;
    }
  }

  /** What the parser leaves of a reply is itself a list of replies, empty where it consumes the reply whole. */
  lemma {:induction false} LeftOver(reply: Reply) returns (left: seq<Reply>)
    requires WellFormed(reply)
    ensures Consumed(reply) <= |Serialize(reply)| && Serialize(reply)[Consumed(reply)..] == SerializeAll(left)
    ensures left == [] <==> Consumed(reply) == |Serialize(reply)|
    ensures forall i :: 0 <= i < |left| ==> WellFormed(left[i])
    decreases reply, 1
  {
    ConsumedWhole(reply);
    match reply
    case Array(items) =>
      left := LeftOverAll(items);
      var head := Line(STAR, Signed(|items|));
      assert Serialize(reply) == head + SerializeAll(items);
      assert Serialize(reply)[Consumed(reply)..] == SerializeAll(items)[ConsumedAll(items)..];
    case _ =>
      left := [];
  }

  lemma {:induction false} LeftOverAll(items: seq<Reply>) returns (left: seq<Reply>)
    requires forall i :: 0 <= i < |items| ==> WellFormed(items[i])
    ensures ConsumedAll(items) <= |SerializeAll(items)|
            && SerializeAll(items)[ConsumedAll(items)..] == SerializeAll(left)
    ensures left == [] <==> ConsumedAll(items) == |SerializeAll(items)|
    ensures forall i :: 0 <= i < |left| ==> WellFormed(left[i])
    decreases items, 0
  {
    hide *;
    ItemsAre(items);
    if items == [] {
      left := [];
    } else {
      var first, others := items[0], items[1..];
      var bytes, rest := Serialize(first), SerializeAll(others);
      ConsumedWhole(first);
      ConsumedWholeAll(others, []);
      ItemsAre(others);
      if Meaning(first).Bad? {
        var inner := LeftOver(first);
        left := inner + others;
        SerializeAppend(inner, others);
        SliceOf(bytes, rest, Consumed(first));
        assert others != [] ==> |rest| > 0;
      } else {
        left := LeftOverAll(others);
        SliceOf(bytes, rest, |bytes| + ConsumedAll(others));
      }
    }
  }

  lemma ItemsAre(items: seq<Reply>)
    ensures items == [] ==> SerializeAll(items) == [] && ConsumedAll(items) == 0
    ensures items != [] ==>
              && SerializeAll(items) == Serialize(items[0]) + SerializeAll(items[1..])
              && |SerializeAll(items)| > 0
              && ConsumedAll(items) ==
                 (if Meaning(items[0]).Bad? then Consumed(items[0]) else Consumed(items[0]) + ConsumedAll(items[1..]))
  {
  }

  lemma SliceOf(a: seq<Byte>, b: seq<Byte>, k: nat)
    requires k <= |a| + |b|
    ensures (a + b)[k..] == if k <= |a| then a[k..] + b else b[k - |a|..]
  {
  }

  /** An array reply cut short by its error: the bytes `+OK` are left to answer the next command. */
  lemma NestedErrorLeavesElements()
    ensures var reply := Array([Error([]), Simple([])]);
            var bytes := Serialize(reply);
            WellFormed(reply) &&
            ParseResp(bytes, 0).Some? && ParseResp(bytes, 0).value.value == Bad(ServerError([])) &&
            ParseResp(bytes, 0).value.next < |bytes|
  {
    var reply := Array([Error([]), Simple([])]);
    var bytes := Serialize(reply);
    ParseSerialized(bytes, 0, reply);
    ConsumedWhole(reply);
    assert !ErrorOnlyLast(reply) by {
      assert Meaning(reply.items[0]).Bad?;
    }
  }

  // ---------- the command encoder ----------

  datatype Part = Text(bytes: seq<Byte>) | Number(n: int)

  /** `String(part)`. */
  function AsText(part: Part): seq<Byte> {
    match part
    case Text(bytes) => bytes
    case Number(n) => Signed(n)
  }

  function Encode(parts: seq<Part>): seq<Byte> {
    Line(STAR, Signed(|parts|)) + EncodeParts(parts)
  }

  function EncodeParts(parts: seq<Part>): seq<Byte> {
    if parts == [] then []
    else
      var text := AsText(parts[0]);
      Line(DOLLAR, Signed(|text|)) + (text + CRLF) + EncodeParts(parts[1..])
  }

  function Texts(parts: seq<Part>): seq<RedisValue> {
    seq(|parts|, i requires 0 <= i < |parts| => Str(AsText(parts[i])))
  }

  function Bulks(parts: seq<Part>): seq<Reply> {
    seq(|parts|, i requires 0 <= i < |parts| => Bulk(AsText(parts[i])))
  }

  lemma {:induction false} EncodeIsSerialize(parts: seq<Part>)
    ensures EncodeParts(parts) == SerializeAll(Bulks(parts))
  {
    if parts != [] {
      EncodeIsSerialize(parts[1..]);
      assert Bulks(parts)[1..] == Bulks(parts[1..]);
    }
  }

  lemma {:induction false} MeaningOfBulks(parts: seq<Part>, values: seq<RedisValue>)
    ensures MeaningAll(Bulks(parts), values) == Good(Arr(values + Texts(parts)))
  {
    if parts == [] {
      assert values + Texts(parts) == values;
    } else {
      MeaningOfBulks(parts[1..], values + [Str(AsText(parts[0]))]);
      assert Bulks(parts)[1..] == Bulks(parts[1..]);
      assert values + [Str(AsText(parts[0]))] + Texts(parts[1..]) == values + Texts(parts);
    }
  }

  /** The parser undoes the encoder on every argument list, wherever it stands and whatever follows. */
  lemma EncodeRoundTrip(before: seq<Byte>, parts: seq<Part>, after: seq<Byte>)
    ensures ParseResp(before + Encode(parts) + after, |before|)
         == Some(Parsed(Good(Arr(Texts(parts))), |before + Encode(parts)|))
  {
    hide ParseResp;
    var reply := Array(Bulks(parts));
    EncodeIsSerialize(parts);
    AtMiddle(before, Encode(parts), after);
    ParseSerialized(before + Encode(parts) + after, |before|, reply);
    MeaningOfBulks(parts, []);
    assert [] + Texts(parts) == Texts(parts);
    ConsumedWhole(reply);
  }

  // ---------- the bytes themselves ----------

  predicate IsByteText(text: string) {
    forall i :: 0 <= i < |text| ==> text[i] < '\U{100}'
  }

  function Bytes(text: string): seq<Byte>
    requires IsByteText(text)
  {
    seq(|text|, i requires 0 <= i < |text| => text[i] as Byte)
  }

  /** The bytes that lead a reply, end its first line and spell a number. */
  lemma BytesAre()
    ensures Bytes("\r\n") == CRLF && Bytes("+-:$*") == [PLUS, MINUS, COLON, DOLLAR, STAR]
    ensures forall b: Byte :: IsDigit(b) <==> '0' as int <= b <= '9' as int
  {
  }

  lemma SignedSmall()
    ensures Signed(2) == Bytes("2") && Signed(3) == Bytes("3") && Signed(-7) == Bytes("-7")
  {
    assert Decimal(7) == [ZERO + 7] && Decimal(2) == [ZERO + 2] && Decimal(3) == [ZERO + 3];
  }

  lemma {:induction false} DecimalHead(n: nat)
    requires n > 0
    ensures Decimal(n) != [] && ZERO < Decimal(n)[0] <= ZERO + 9
  {
    if n >= 10 {
      DecimalHead(n / 10);
    }
  }

  /** A number is written in as few digits as possible, with a minus in front exactly when it is negative. */
  lemma NumberOnWire(n: int)
    ensures Signed(0) == Bytes("0")
    ensures n > 0 ==>
              Signed(n) != [] && '1' as int <= Signed(n)[0] <= '9' as int && Signed(-n) == Bytes("-") + Signed(n)
  {
    if n > 0 {
      DecimalHead(n);
    }
    assert Bytes("-") == [MINUS];
  }

  lemma BytesJoin(a: string, b: string)
    requires IsByteText(a) && IsByteText(b)
    ensures IsByteText(a + b) && Bytes(a + b) == Bytes(a) + Bytes(b)
  {
  }

  lemma LinesOnWire()
    ensures Line(STAR, Bytes("2")) == Bytes("*2\r\n") && Line(DOLLAR, Bytes("3")) == Bytes("$3\r\n")
    ensures Line(DOLLAR, Bytes("2")) == Bytes("$2\r\n")
    ensures Bytes("SET") + CRLF == Bytes("SET\r\n") && Bytes("-7") + CRLF == Bytes("-7\r\n")
  {
  }

  lemma PartsOnWire(a: Part, b: Part)
    ensures EncodeParts([a, b]) ==
            Line(DOLLAR, Signed(|AsText(a)|)) + (AsText(a) + CRLF) +
            (Line(DOLLAR, Signed(|AsText(b)|)) + (AsText(b) + CRLF))
  {
    hide Signed, Line, AsText;
    assert [a, b][1..] == [b] && [b][1..] == [];
    var last := Line(DOLLAR, Signed(|AsText(b)|)) + (AsText(b) + CRLF);
    assert EncodeParts([b]) == last + [];
    assert last + [] == last;
  }

  /** `SET` with the number -7, as it is sent. */
  lemma CommandOnWire()
    ensures Encode([Text(Bytes("SET")), Number(-7)]) ==
            Bytes("*2\r\n" + ("$3\r\n" + "SET\r\n" + ("$2\r\n" + "-7\r\n")))
  {
    SignedSmall();
    LinesOnWire();
    PartsOnWire(Text(Bytes("SET")), Number(-7));
    assert |Bytes("SET")| == 3 && |Bytes("-7")| == 2;
    hide Signed, Line, EncodeParts, Bytes;
    BytesJoin("$2\r\n", "-7\r\n");
    BytesJoin("$3\r\n", "SET\r\n");
    BytesJoin("$3\r\n" + "SET\r\n", "$2\r\n" + "-7\r\n");
    BytesJoin("*2\r\n", "$3\r\n" + "SET\r\n" + ("$2\r\n" + "-7\r\n"));
  }

  /** A first line at `offset`, and what follows it. */
  predicate StartsWith(buffer: seq<Byte>, offset: nat, prefix: char, line: seq<Byte>)
    requires prefix < '\U{100}'
  {
    '\r' as Byte !in line && prefix != '\r' &&
    offset <= |buffer| && [prefix as Byte] + line + Bytes("\r\n") <= buffer[offset..]
  }

  lemma StartsAt(buffer: seq<Byte>, offset: nat, prefix: char, line: seq<Byte>)
    requires prefix < '\U{100}' && StartsWith(buffer, offset, prefix, line)
    ensures offset + |line| + 3 <= |buffer|
    ensures ParseResp(buffer, offset) == ParseFrame(buffer, prefix as Byte, line, offset + |line| + 3)
  {
    hide ParseResp, ParseFrame;
    BytesAre();
    var head := Line(prefix as Byte, line);
    assert head <= buffer[offset..];
    assert forall i :: 0 <= i < |head| ==> buffer[offset..][i] == head[i];
    ParseHead(buffer, offset, prefix as Byte, line);
  }

  /** What a first line alone says, whatever it is: a status, an error, a number, a null, an error for a length that is
      negative or no number, an empty array for such a count, and an error for any other prefix. */
  lemma FirstLineRead(buffer: seq<Byte>, offset: nat, prefix: char, line: seq<Byte>)
    requires prefix < '\U{100}' && StartsWith(buffer, offset, prefix, line)
    ensures var r, n, next := ParseResp(buffer, offset), ToNumber(line), offset + |line| + 3;
            match prefix
            case '+' => r == Some(Parsed(Good(Str(line)), next))
            case '-' => r == Some(Parsed(Bad(ServerError(line)), next))
            case ':' => r == Some(Parsed(Good(Num(n)), next))
            case '$' =>
              if n == Int(-1) then r == Some(Parsed(Good(Null), next))
              else n == NaN || n.n < 0 ==> r == Some(Parsed(Bad(InvalidBulk), next))
            case '*' =>
              if n == Int(-1) then r == Some(Parsed(Good(Null), next))
              else n == NaN || n.n <= 0 ==> r == Some(Parsed(Good(Arr([])), next))
            case _ => r == Some(Parsed(Bad(UnsupportedPrefix(prefix as Byte)), next))
  {
    StartsAt(buffer, offset, prefix, line);
    hide ParseResp, ToNumber;
  }

  lemma SignRead(sign: Byte, digits: seq<Byte>)
    requires sign == PLUS || sign == MINUS
    ensures digits != [] && AllDigits(digits) ==>
              ToNumber([sign] + digits) == Int(if sign == PLUS then DigitsValue(digits) else 0 - DigitsValue(digits))
  {
    var line := [sign] + digits;
    assert line[0] == sign && line[1..] == digits;
    assert !IsDigit(line[0]);
  }

  /** The numbers a line stands for: none is 0; digits, with a sign or without; anything else is no number. */
  lemma NumberRead(line: seq<Byte>)
    ensures ToNumber([]) == Int(0)
    ensures line != [] && AllDigits(line) ==>
              && ToNumber(line) == Int(DigitsValue(line))
              && ToNumber(Bytes("+") + line) == Int(DigitsValue(line))
              && ToNumber(Bytes("-") + line) == Int(0 - DigitsValue(line))
    ensures ToNumber(line) == NaN <==>
              !AllDigits(line) && !(|line| > 1 && line[0] in Bytes("+-") && AllDigits(line[1..]))
  {
    BytesAre();
    assert Bytes("+-") == [PLUS, MINUS] && Bytes("+") == [PLUS] && Bytes("-") == [MINUS];
    SignRead(PLUS, line);
    SignRead(MINUS, line);
    NumberFails(line);
    hide ToNumber, AllDigits, DigitsValue, Bytes;
    NumberOf(line);
  }

  lemma NumberOf(line: seq<Byte>)
    ensures ToNumber([]) == Int(0)
    ensures line != [] && AllDigits(line) ==> ToNumber(line) == Int(DigitsValue(line))
  {
  }

  lemma NumberFails(line: seq<Byte>)
    ensures ToNumber(line) == NaN <==>
              !AllDigits(line) && !(|line| > 1 && line[0] in [PLUS, MINUS] && AllDigits(line[1..]))
  {
    hide DigitsValue;
  }

  // ---------- draining a buffer, and feeding it in chunks ----------

  datatype Drained = Drained(outcomes: seq<Outcome>, rest: seq<Byte>)

  /** What the data handler takes off the buffer while `waiting` commands wait. */
  function Drain(buffer: seq<Byte>, waiting: nat): (d: Drained)
    ensures |d.outcomes| <= waiting && |d.rest| <= |buffer|
    decreases waiting
  {
    if waiting == 0 then Drained([], buffer)
    else match ParseResp(buffer, 0)
      case None => Drained([], buffer)
      case Some(Parsed(value, next)) =>
        var d := Drain(buffer[next..], waiting - 1);
        Drained([value] + d.outcomes, d.rest)
  }

  /** Draining, receiving more bytes and draining again is draining all the bytes at once. */
  lemma {:induction false} DrainStable(buffer: seq<Byte>, more: seq<Byte>, waiting: nat)
    ensures var first := Drain(buffer, waiting);
            var second := Drain(first.rest + more, waiting - |first.outcomes|);
            Drain(buffer + more, waiting) == Drained(first.outcomes + second.outcomes, second.rest)
    decreases waiting
  {
    hide ParseResp, Drain;
    var first := Drain(buffer, waiting);
    var second := Drain(first.rest + more, waiting - |first.outcomes|);
    if waiting == 0 || ParseResp(buffer, 0).None? {
      DrainNothing(buffer, waiting);
      assert first.outcomes + second.outcomes == second.outcomes;
    } else {
      var Parsed(value, next) := ParseResp(buffer, 0).value;
      DrainStep(buffer, more, waiting);
      DrainFirst(buffer, waiting);
      DrainStable(buffer[next..], more, waiting - 1);
      var tail := Drain(buffer[next..], waiting - 1);
      assert [value] + (tail.outcomes + second.outcomes) == first.outcomes + second.outcomes;
    }
  }

  lemma DrainStep(buffer: seq<Byte>, more: seq<Byte>, waiting: nat)
    requires waiting > 0 && ParseResp(buffer, 0).Some?
    ensures var Parsed(value, next) := ParseResp(buffer, 0).value;
            var d := Drain(buffer[next..] + more, waiting - 1);
            Drain(buffer + more, waiting) == Drained([value] + d.outcomes, d.rest)
  {
    var next := ParseResp(buffer, 0).value.next;
    ParseStable(buffer, buffer + more, 0);
    assert (buffer + more)[next..] == buffer[next..] + more;
  }

  function Concat(chunks: seq<seq<Byte>>): seq<Byte> {
    if chunks == [] then [] else chunks[0] + Concat(chunks[1..])
  }

  /** The data handler run once per chunk. */
  function Feed(buffer: seq<Byte>, waiting: nat, chunks: seq<seq<Byte>>): (d: Drained)
    ensures |d.outcomes| <= waiting
    decreases |chunks|
  {
    if chunks == [] then Drained([], buffer)
    else
      var first := Drain(buffer + chunks[0], waiting);
      var later := Feed(first.rest, waiting - |first.outcomes|, chunks[1..]);
      Drained(first.outcomes + later.outcomes, later.rest)
  }

  /** However a reply stream is cut into chunks, the outcomes and the bytes left over are those of one chunk. */
  lemma {:induction false} ChunkInvariance(buffer: seq<Byte>, waiting: nat, chunks: seq<seq<Byte>>)
    requires chunks != []
    ensures Feed(buffer, waiting, chunks) == Drain(buffer + Concat(chunks), waiting)
    decreases |chunks|
  {
    hide Drain;
    var first := Drain(buffer + chunks[0], waiting);
    if |chunks| == 1 {
      assert chunks[0] + Concat(chunks[1..]) == chunks[0];
      assert first.outcomes + [] == first.outcomes;
    } else {
      ChunkInvariance(first.rest, waiting - |first.outcomes|, chunks[1..]);
      DrainStable(buffer + chunks[0], Concat(chunks[1..]), waiting);
      assert buffer + Concat(chunks) == buffer + chunks[0] + Concat(chunks[1..]);
    }
  }

  lemma ParseFront(reply: Reply, after: seq<Byte>)
    requires WellFormed(reply)
    ensures ParseResp(Serialize(reply) + after, 0) == Some(Parsed(Meaning(reply), Consumed(reply)))
  {
    hide *;
    AtMiddle([], Serialize(reply), after);
    assert [] + Serialize(reply) + after == Serialize(reply) + after;
    ParseSerialized(Serialize(reply) + after, 0, reply);
  }

  /** A reply followed by anything is taken off the buffer whole, if and only if no error in it
      is followed by other elements. */
  lemma ReplyTakenWholeIff(reply: Reply, after: seq<Byte>)
    requires WellFormed(reply)
    ensures Drain(Serialize(reply) + after, 1) == Drained([Meaning(reply)], after) <==> ErrorOnlyLast(reply)
  {
    hide *;
    var buffer := Serialize(reply) + after;
    ParseFront(reply, after);
    ConsumedWhole(reply);
    SliceOf(Serialize(reply), after, Consumed(reply));
    var rest := buffer[Consumed(reply)..];
    DrainFirst(buffer, 1);
    DrainNothing(rest, 0);
    assert [Meaning(reply)] + [] == [Meaning(reply)];
    assert |rest| == |buffer| - Consumed(reply);
  }

  function Meanings(replies: seq<Reply>): seq<Outcome> {
    seq(|replies|, i requires 0 <= i < |replies| => Meaning(replies[i]))
  }

  predicate Readable(replies: seq<Reply>) {
    forall i :: 0 <= i < |replies| ==> WellFormed(replies[i]) && ErrorOnlyLast(replies[i])
  }

  /** Whatever part of the reply stream has arrived, draining settles the first commands with their own
      replies and keeps the bytes of the next one. */
  lemma {:induction false} DrainReplies(buffer: seq<Byte>, replies: seq<Reply>)
    requires Readable(replies) && buffer <= SerializeAll(replies)
    ensures var d := Drain(buffer, |replies|);
            var m := |d.outcomes|;
            d.outcomes == Meanings(replies[..m]) && buffer == SerializeAll(replies[..m]) + d.rest
  {
    hide *;
    if replies != [] && ParseResp(buffer, 0).Some? {
      FirstReply(buffer, replies);
      ReadableRest(replies);
      DrainFirst(buffer, |replies|);
      var first := Serialize(replies[0]);
      DrainReplies(buffer[|first|..], replies[1..]);
      var tail := Drain(buffer[|first|..], |replies| - 1);
      PrefixCons(replies, |tail.outcomes|);
      assert buffer == first + buffer[|first|..];
    } else {
      DrainNothing(buffer, |replies|);
      NoReplies(replies);
    }
  }

  lemma DrainFirst(buffer: seq<Byte>, waiting: nat)
    requires waiting > 0 && ParseResp(buffer, 0).Some?
    ensures var Parsed(value, next) := ParseResp(buffer, 0).value;
            var d := Drain(buffer[next..], waiting - 1);
            Drain(buffer, waiting) == Drained([value] + d.outcomes, d.rest)
  {
    hide ParseResp;
  }

  lemma DrainNothing(buffer: seq<Byte>, waiting: nat)
    requires waiting == 0 || ParseResp(buffer, 0).None?
    ensures Drain(buffer, waiting) == Drained([], buffer)
  {
    hide ParseResp;
  }

  lemma ReadableRest(replies: seq<Reply>)
    requires Readable(replies) && replies != []
    ensures Readable(replies[1..])
  {
  }

  lemma NoReplies(replies: seq<Reply>)
    ensures replies[..0] == [] && SerializeAll([]) == [] && Meanings([]) == []
  {
  }

  lemma PrefixCons(replies: seq<Reply>, m: nat)
    requires m < |replies|
    ensures SerializeAll(replies[..m + 1]) == Serialize(replies[0]) + SerializeAll(replies[1..][..m])
    ensures Meanings(replies[..m + 1]) == [Meaning(replies[0])] + Meanings(replies[1..][..m])
  {
    assert replies[..m + 1][1..] == replies[1..][..m];
  }

  lemma FirstReply(buffer: seq<Byte>, replies: seq<Reply>)
    requires Readable(replies) && replies != [] && buffer <= SerializeAll(replies) && ParseResp(buffer, 0).Some?
    ensures var first := Serialize(replies[0]);
            ParseResp(buffer, 0) == Some(Parsed(Meaning(replies[0]), |first|)) &&
            first <= buffer && buffer[|first|..] <= SerializeAll(replies[1..])
  {
    hide *;
    var stream, first := SerializeAll(replies), Serialize(replies[0]);
    SerializeCons(replies);
    ReadableFirst(replies);
    ParseStable(buffer, stream, 0);
    AtMiddle([], first, SerializeAll(replies[1..]));
    assert [] + first + SerializeAll(replies[1..]) == stream;
    ParseSerialized(stream, 0, replies[0]);
    ConsumedWhole(replies[0]);
    PrefixSplit(buffer, first, SerializeAll(replies[1..]));
  }

  lemma PrefixSplit(buffer: seq<Byte>, first: seq<Byte>, rest: seq<Byte>)
    requires buffer <= first + rest && |first| <= |buffer|
    ensures first <= buffer && buffer[|first|..] <= rest
  {
    var whole := first + rest;
    assert buffer == whole[..|buffer|];
    assert whole[|first|..|buffer|] == rest[..|buffer| - |first|];
  }

  lemma SerializeCons(replies: seq<Reply>)
    requires replies != []
    ensures SerializeAll(replies) == Serialize(replies[0]) + SerializeAll(replies[1..])
  {
  }

  lemma ReadableFirst(replies: seq<Reply>)
    requires Readable(replies) && replies != []
    ensures WellFormed(replies[0]) && ErrorOnlyLast(replies[0])
  {
  }
}
