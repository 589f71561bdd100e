/** `_varint` and `iter_index`: the fields of a Protocol Buffers message, front to back. */
module WireFormat {
  import opened Wrappers

  type Byte = b: int | 0 <= b < 256

  /** Why the walk over a buffer stopped. */
  datatype End = Finished | OutOfBytes | Unsupported(wire: nat, at: nat)

  /** A field of each wire type the walk understands. */
  datatype Field =
    | Varint(number: nat, value: nat)
    | Fixed64(number: nat, bytes: seq<Byte>)
    | Bytes(number: nat, payload: seq<Byte>)
    | Fixed32(number: nat, bytes: seq<Byte>)

  datatype Walked = Walked(fields: seq<Field>, end: End)

  // ----- Base 128 varints -----

  /** The value and the offset behind the number that starts here. */
  function Decode(buffer: seq<Byte>, offset: nat): (r: Result<(nat, nat), End>)
    ensures r.Ok? ==> offset < r.value.1 <= |buffer|
    ensures r.Err? ==> r.error == OutOfBytes
    decreases |buffer| - offset
  {
    if offset >= |buffer| then Err(OutOfBytes)
    else if buffer[offset] < 128 then Ok((buffer[offset] as nat, offset + 1))
    else
      match Decode(buffer, offset + 1)
      case Err(e) => Err(e)
      case Ok((high, next)) => Ok((buffer[offset] % 128 + 128 * high, next))
  }

  function Encode(n: nat): (bytes: seq<Byte>)
    ensures bytes != []
  {
    if n < 128 then [n] else [n % 128 + 128] + Encode(n / 128)
  }

  function Pow2(k: nat): (p: nat)
    ensures p > 0
  {
    if k == 0 then 1 else 2 * Pow2(k - 1)
  }

  /** Places a number read later above the bits read so far. */
  function Above(low: nat, shift: nat, high: Result<(nat, nat), End>): Result<(nat, nat), End> {
    match high
    case Err(e) => Err(e)
    case Ok((n, next)) => Ok((low + Pow2(shift) * n, next))
  }

  method ReadVarint(buffer: seq<Byte>, start: nat) returns (r: Result<(nat, nat), End>)
    ensures r == Decode(buffer, start)
  {
    var offset: nat, result: nat, shift: nat := start, 0, 0;
    while offset < |buffer|
      invariant Decode(buffer, start) == Above(result, shift, Decode(buffer, offset))
      decreases |buffer| - offset
    {
      var byte := buffer[offset];
      ReadOneByte(buffer, offset, result, shift);
      offset := offset + 1;
      result := result + (byte % 128) * Pow2(shift);
      if byte < 128 {
        return Ok((result, offset));
      }
      shift := shift + 7;
    }
    return Err(OutOfBytes);
  }

  lemma ReadOneByte(buffer: seq<Byte>, offset: nat, low: nat, shift: nat)
    requires offset < |buffer|
    ensures var now := low + (buffer[offset] % 128) * Pow2(shift);
            Above(low, shift, Decode(buffer, offset))
              == if buffer[offset] < 128 then Ok((now, offset + 1)) else Above(now, shift + 7, Decode(buffer, offset + 1))
  {
    Pow2Seven(shift);
    if buffer[offset] >= 128 && Decode(buffer, offset + 1).Ok? {
      var high := Decode(buffer, offset + 1).value.0;
      Regroup(Pow2(shift), buffer[offset] % 128, high);
    }
  }

  lemma Regroup(p: int, low: int, high: int)
    ensures p * (low + 128 * high) == low * p + (128 * p) * high
  {
    assert p * (128 * high) == (128 * p) * high;
  }

  lemma Pow2Seven(k: nat)
    ensures Pow2(k + 7) == 128 * Pow2(k)
  {
    assert Pow2(k + 7) == 2 * Pow2(k + 6) == 4 * Pow2(k + 5) == 8 * Pow2(k + 4);
    assert Pow2(k + 4) == 2 * Pow2(k + 3) == 4 * Pow2(k + 2) == 8 * Pow2(k + 1);
  }

  /** Reading an encoded number gives the number and the offset right behind it. */
  lemma {:induction false} VarintRoundTrip(n: nat, before: seq<Byte>, after: seq<Byte>)
    ensures Decode(before + Encode(n) + after, |before|) == Ok((n, |before| + |Encode(n)|))
  {
    var buffer := before + Encode(n) + after;
    assert buffer[|before|] == Encode(n)[0];
    if n >= 128 {
      var first: Byte := n % 128 + 128;
      VarintRoundTrip(n / 128, before + [first], after);
      assert buffer == before + [first] + Encode(n / 128) + after;
    }
  }

  /** A number cut off before its last byte is never read. */
  lemma {:induction false} VarintCutOff(n: nat, k: nat, before: seq<Byte>)
    requires k < |Encode(n)|
    ensures Decode(before + Encode(n)[..k], |before|) == Err(OutOfBytes)
    decreases k
  {
    if k > 0 {
      var first: Byte := n % 128 + 128;
      VarintCutOff(n / 128, k - 1, before + [first]);
      assert before + Encode(n)[..k] == before + [first] + Encode(n / 128)[..k - 1];
    }
  }

  /** A number was written in the fewest bytes exactly when it takes one byte or its
      last byte is not zero; other spellings are read as well. */
  lemma {:induction false} ShortestSpelling(buffer: seq<Byte>, offset: nat)
    requires Decode(buffer, offset).Ok?
    ensures var (n, next) := Decode(buffer, offset).value;
            buffer[offset..next] == Encode(n) <==> next == offset + 1 || buffer[next - 1] != 0
    decreases |buffer| - offset
  {
    if buffer[offset] >= 128 {
      ShortestSpelling(buffer, offset + 1);
      ZeroIsShort(buffer, offset + 1);
      var (high, next) := Decode(buffer, offset + 1).value;
      assert Decode(buffer, offset).value == (buffer[offset] % 128 + 128 * high, next);
      hide Decode;
      LongerEncoding(buffer[offset], buffer[offset + 1..next], high);
      assert buffer[offset..next] == [buffer[offset]] + buffer[offset + 1..next];
    }
  }

  /** A byte in front of some bytes is an encoding exactly when those encode the rest,
      which is not zero. */
  lemma LongerEncoding(byte: Byte, bytes: seq<Byte>, high: nat)
    requires byte >= 128 && bytes != []
    ensures [byte] + bytes == Encode(byte % 128 + 128 * high) <==> high > 0 && bytes == Encode(high)
  {
    Digits(byte % 128, high);
    assert ([byte] + bytes)[1..] == bytes;
    if high > 0 {
      assert Encode(byte % 128 + 128 * high) == [byte] + Encode(high);
      assert ([byte] + Encode(high))[1..] == Encode(high);
    }
  }

  /** A zero in more than one byte ends in a zero byte. */
  lemma {:induction false} ZeroIsShort(buffer: seq<Byte>, offset: nat)
    requires Decode(buffer, offset).Ok?
    ensures var (n, next) := Decode(buffer, offset).value;
            (n == 0 ==> buffer[next - 1] == 0) && (n > 0 && next == offset + 1 ==> buffer[next - 1] != 0)
    decreases |buffer| - offset
  {
    if buffer[offset] >= 128 {
      ZeroIsShort(buffer, offset + 1);
    }
  }

  // ----- Messages -----

  /** A Python slice: what there is of the range. */
  function Slice(buffer: seq<Byte>, from: nat, to: nat): seq<Byte> {
    if from >= |buffer| || to <= from then [] else if to <= |buffer| then buffer[from..to] else buffer[from..]
  }

  /** The next field and the offset behind it. */
  function ReadField(buffer: seq<Byte>, offset: nat): (r: Result<(Field, nat), End>)
    ensures r.Ok? ==> r.value.1 > offset
  {
    match Decode(buffer, offset)
    case Err(e) => Err(e)
    case Ok((key, at)) =>
      var number, wire := key / 8, key % 8;
      if wire == 2 then
        match Decode(buffer, at)
        case Err(e) => Err(e)
        case Ok((length, body)) => Ok((Bytes(number, Slice(buffer, body, body + length)), body + length))
      else if wire == 0 then
        match Decode(buffer, at)
        case Err(e) => Err(e)
        case Ok((value, next)) => Ok((Varint(number, value), next))
      else if wire == 1 then Ok((Fixed64(number, Slice(buffer, at, at + 8)), at + 8))
      else if wire == 5 then Ok((Fixed32(number, Slice(buffer, at, at + 4)), at + 4))
      else Err(Unsupported(wire, at))
  }

  function Walk(buffer: seq<Byte>, offset: nat): Walked
    decreases |buffer| - offset
  {
    if offset >= |buffer| then Walked([], Finished) else
      match ReadField(buffer, offset)
      case Err(e) => Walked([], e)
      case Ok((field, next)) =>
        var rest := Walk(buffer, next);
        Walked([field] + rest.fields, rest.end)
  }

  /** What the walk hands out: the length-delimited fields with their numbers. */
  function Payloads(fields: seq<Field>): seq<(nat, seq<Byte>)> {
    if fields == [] then []
    else (if fields[0].Bytes? then [(fields[0].number, fields[0].payload)] else []) + Payloads(fields[1..])
  }

  method IterIndex(buffer: seq<Byte>) returns (yielded: seq<(nat, seq<Byte>)>, end: End, ghost last: nat)
    ensures yielded == Payloads(Walk(buffer, 0).fields) && end == Walk(buffer, 0).end
    ensures end == Finished ==> last == LastOffset(buffer, 0)
  {
    hide Decode, Walk, Payloads, Slice, LastOffset;
    yielded := [];
    var size, offset: nat := |buffer|, 0;
    NothingLeft(buffer);
    while offset < size
      invariant Payloads(Walk(buffer, 0).fields) == yielded + Payloads(Walk(buffer, offset).fields)
      invariant Walk(buffer, 0).end == Walk(buffer, offset).end
      invariant Walk(buffer, 0).end == Finished ==> LastOffset(buffer, 0) == LastOffset(buffer, offset)
      decreases size - offset
    {
      WalkStep(buffer, offset);
      var key := ReadVarint(buffer, offset);
      if key.Err? {
        return yielded, key.error, offset;
      }
      var (k, at) := key.value;
      var field, wire := k / 8, k % 8;
      if wire == 2 {
        var read := ReadVarint(buffer, at);
        if read.Err? {
          return yielded, read.error, offset;
        }
        var (length, body) := read.value;
        yielded := yielded + [(field, Slice(buffer, body, body + length))];
        offset := body + length;
      } else if wire == 0 {
        var read := ReadVarint(buffer, at);
        if read.Err? {
          return yielded, read.error, offset;
        }
        offset := read.value.1;
      } else if wire == 1 {
        offset := at + 8;
      } else if wire == 5 {
        offset := at + 4;
      } else {
        return yielded, Unsupported(wire, at), offset;
      }
    }
    return yielded, Finished, offset;
  }

  lemma WalkStep(buffer: seq<Byte>, offset: nat)
    requires offset < |buffer|
    ensures var field := ReadField(buffer, offset);
            var walked := Walk(buffer, offset);
            if field.Err? then Payloads(walked.fields) == [] && walked.end == field.error
            else
              var (f, next) := field.value;
              && walked.end == Walk(buffer, next).end && LastOffset(buffer, offset) == LastOffset(buffer, next)
              && Payloads(walked.fields)
                 == (if f.Bytes? then [(f.number, f.payload)] else []) + Payloads(Walk(buffer, next).fields)
  {
    hide ReadField;
    var field := ReadField(buffer, offset);
    if field.Ok? {
      var rest := Walk(buffer, field.value.1);
      assert ([field.value.0] + rest.fields)[1..] == rest.fields;
    }
  }

  lemma NothingLeft(buffer: seq<Byte>)
    ensures forall offset: nat :: offset >= |buffer| ==>
              Payloads(Walk(buffer, offset).fields) == [] && Walk(buffer, offset).end == Finished && LastOffset(buffer, offset) == offset
  {
  }

  // ----- Encoding messages -----

  function Key(field: Field): nat {
    8 * field.number + match field case Varint(_, _) => 0 case Fixed64(_, _) => 1 case Bytes(_, _) => 2 case Fixed32(_, _) => 5
  }

  function Body(field: Field): seq<Byte> {
    match field
    case Varint(_, value) => Encode(value)
    case Bytes(_, payload) => Encode(|payload|) + payload
    case _ => field.bytes
  }

  function EncodeField(field: Field): (bytes: seq<Byte>)
    ensures bytes != []
  {
    Encode(Key(field)) + Body(field)
  }

  /** Fixed-width fields hold exactly their width. */
  predicate WellFormed(field: Field) {
    (field.Fixed64? ==> |field.bytes| == 8) && (field.Fixed32? ==> |field.bytes| == 4)
  }

  function EncodeAll(fields: seq<Field>): seq<Byte> {
    if fields == [] then [] else EncodeField(fields[0]) + EncodeAll(fields[1..])
  }

  lemma KeyParts(field: Field)
    ensures Key(field) / 8 == field.number && Key(field) % 8 == Key(field.(number := 0))
  {
  }

  /** The key reads back as the number and the wire type, wherever it stands. */
  lemma KeyRead(field: Field, before: seq<Byte>, rest: seq<Byte>)
    ensures Decode(before + Encode(Key(field)) + rest, |before|) == Ok((Key(field), |before| + |Encode(Key(field))|))
    ensures Key(field) / 8 == field.number && Key(field) % 8 == Key(field.(number := 0))
  {
    hide Decode, Encode;
    KeyParts(field);
    VarintRoundTrip(Key(field), before, rest);
  }

  lemma FieldRoundTrip(field: Field, before: seq<Byte>, after: seq<Byte>)
    requires WellFormed(field)
    ensures ReadField(before + EncodeField(field) + after, |before|) == Ok((field, |before| + |EncodeField(field)|))
  {
    hide Decode, Encode, Slice;
    var key := before + Encode(Key(field));
    KeyRead(field, before, Body(field) + after);
    assert before + EncodeField(field) + after == key + (Body(field) + after);
    match field {
      case Varint(_, value) =>
        VarintRoundTrip(value, key, after);
        assert key + Encode(value) + after == key + (Encode(value) + after);
      case Bytes(_, payload) =>
        BytesRead(payload, key, after);
      case _ =>
        SliceMiddle(key, field.bytes, after);
        assert key + field.bytes + after == key + (field.bytes + after);
    }
  }

  lemma BytesRead(payload: seq<Byte>, key: seq<Byte>, after: seq<Byte>)
    ensures var buffer := key + (Encode(|payload|) + payload + after);
            var body := |key| + |Encode(|payload|)|;
            Decode(buffer, |key|) == Ok((|payload|, body)) && Slice(buffer, body, body + |payload|) == payload
  {
    hide Decode, Encode, Slice;
    var length := Encode(|payload|);
    VarintRoundTrip(|payload|, key, payload + after);
    Associate(key, length, payload, after);
    SliceMiddle(key + length, payload, after);
  }

  lemma Associate(a: seq<Byte>, b: seq<Byte>, c: seq<Byte>, d: seq<Byte>)
    ensures a + b + (c + d) == a + (b + c + d) == a + b + c + d
  {
  }

  lemma SliceMiddle(before: seq<Byte>, middle: seq<Byte>, after: seq<Byte>)
    ensures Slice(before + middle + after, |before|, |before| + |middle|) == middle
  {
  }

  /** Walking an encoded message gives back its fields and stops at its end. */
  lemma {:induction false} WalkRoundTrip(fields: seq<Field>, before: seq<Byte>)
    requires forall i :: 0 <= i < |fields| ==> WellFormed(fields[i])
    ensures Walk(before + EncodeAll(fields), |before|) == Walked(fields, Finished)
    decreases |fields|
  {
    hide ReadField, EncodeField;
    if fields != [] {
      var first := EncodeField(fields[0]);
      FieldRoundTrip(fields[0], before, EncodeAll(fields[1..]));
      assert before + EncodeAll(fields) == before + first + EncodeAll(fields[1..]);
      WalkRoundTrip(fields[1..], before + first);
      assert fields == [fields[0]] + fields[1..];
    }
  }

  // ----- Cut-off messages -----

  /** How many bytes of a field must be there before the walk moves on to its end. */
  function Header(field: Field): nat {
    match field
    case Varint(_, _) => |EncodeField(field)|
    case Bytes(_, payload) => |Encode(Key(field))| + |Encode(|payload|)|
    case _ => |Encode(Key(field))|
  }

  /** The first k bytes of a field are taken for a field, or for nothing at all. */
  predicate Unnoticed(field: Field, k: nat) {
    k == 0 || k >= Header(field)
  }

  /** The field the walk makes of the first k bytes: the same with what there is of
      its contents. */
  function Shortened(field: Field, k: nat): Field
    requires Header(field) <= k <= |EncodeField(field)|
  {
    match field
    case Varint(_, _) => field
    case Bytes(_, payload) => field.(payload := payload[..k - Header(field)])
    case _ => field.(bytes := field.bytes[..k - Header(field)])
  }

  function WalkedCut(field: Field, k: nat): Walked
    requires k <= |EncodeField(field)|
  {
    if k == 0 then Walked([], Finished)
    else if k >= Header(field) then Walked([Shortened(field, k)], Finished)
    else Walked([], OutOfBytes)
  }

  /** Cut inside its key or its length, a field is not read. */
  lemma CutHeader(field: Field, k: nat, before: seq<Byte>)
    requires WellFormed(field) && k < Header(field)
    ensures ReadField(before + EncodeField(field)[..k], |before|) == Err(OutOfBytes)
  {
    hide Decode, Encode;
    var key := Encode(Key(field));
    if k < |key| {
      VarintCutOff(Key(field), k, before);
      assert EncodeField(field)[..k] == key[..k];
    } else {
      var number := if field.Varint? then field.value else |field.payload|;
      var rest := Encode(number)[..k - |key|];
      assert EncodeField(field)[..k] == key + rest;
      KeyRead(field, before, rest);
      VarintCutOff(number, k - |key|, before + key);
      assert before + (key + rest) == before + key + rest;
    }
  }

  /** Cut behind that, it is read with what there is of its contents. */
  lemma CutContents(field: Field, k: nat, before: seq<Byte>)
    requires WellFormed(field) && !field.Varint? && Header(field) <= k <= |EncodeField(field)|
    ensures ReadField(before + EncodeField(field)[..k], |before|) == Ok((Shortened(field, k), |before| + |EncodeField(field)|))
  {
    hide Decode, Encode, Slice;
    var key := Encode(Key(field));
    if field.Bytes? {
      var length, rest := Encode(|field.payload|), field.payload[..k - Header(field)];
      assert EncodeField(field)[..k] == key + length + rest;
      KeyRead(field, before, length + rest);
      VarintRoundTrip(|field.payload|, before + key, rest);
      Associate([], before, key, length + rest);
      Associate(before, key, length, rest);
      SliceRest(before + key + length, rest, |field.payload|);
    } else {
      var rest := field.bytes[..k - Header(field)];
      assert EncodeField(field)[..k] == key + rest;
      KeyRead(field, before, rest);
      assert before + (key + rest) == before + key + rest;
      SliceRest(before + key, rest, |field.bytes|);
    }
  }

  lemma SliceRest(before: seq<Byte>, rest: seq<Byte>, length: nat)
    requires |rest| <= length
    ensures Slice(before + rest, |before|, |before| + length) == rest
  {
  }

  lemma CutField(field: Field, k: nat, before: seq<Byte>)
    requires WellFormed(field) && k <= |EncodeField(field)|
    ensures Walk(before + EncodeField(field)[..k], |before|) == WalkedCut(field, k)
  {
    hide ReadField, Encode, EncodeField;
    var cut := EncodeField(field)[..k];
    if 0 < k < Header(field) {
      CutHeader(field, k, before);
    } else if k > 0 {
      HeaderWithin(field);
      if field.Varint? {
        FieldRoundTrip(field, before, []);
        assert before + EncodeField(field) + [] == before + cut;
      } else {
        CutContents(field, k, before);
      }
    }
  }

  lemma HeaderWithin(field: Field)
    ensures 0 < Header(field) <= |EncodeField(field)|
  {
  }

  /** A message cut off in its last field: the walk reads the fields before, and then
      finishes exactly when the cut is in front of the field or behind its header. */
  lemma {:induction false} CutOffMessage(fields: seq<Field>, last: Field, k: nat, before: seq<Byte>)
    requires WellFormed(last) && forall i :: 0 <= i < |fields| ==> WellFormed(fields[i])
    requires k <= |EncodeField(last)|
    ensures var walked := Walk(before + EncodeAll(fields) + EncodeField(last)[..k], |before|);
            && walked == Walked(fields + WalkedCut(last, k).fields, WalkedCut(last, k).end)
            && walked.end == (if Unnoticed(last, k) then Finished else OutOfBytes)
    decreases |fields|
  {
    hide ReadField, EncodeField, Encode, Shortened, Header;
    var cut := EncodeField(last)[..k];
    if fields == [] {
      assert before + EncodeAll(fields) + cut == before + cut;
      CutField(last, k, before);
    } else {
      var first, rest := EncodeField(fields[0]), EncodeAll(fields[1..]) + cut;
      assert before + EncodeAll(fields) + cut == before + first + rest;
      FieldRoundTrip(fields[0], before, rest);
      CutOffMessage(fields[1..], last, k, before + first);
      assert before + first + EncodeAll(fields[1..]) + cut == before + first + rest;
      assert fields + WalkedCut(last, k).fields == [fields[0]] + (fields[1..] + WalkedCut(last, k).fields);
    }
  }

  /** Two messages the walk finishes on: nothing but the key of an eight-byte field,
      and a payload of five bytes of which one is there. */
  lemma CutOffExamples()
    ensures Walk([9], 0) == Walked([Fixed64(1, [])], Finished)
    ensures Walk([10, 5, 7], 0) == Walked([Bytes(1, [7])], Finished)
  {
    assert Walk([9], 9).fields == [] && Walk([10, 5, 7], 7).fields == [];
    assert Slice([10, 5, 7], 2, 7) == [7];
  }

  /** A zero written in two bytes is read as a zero, which takes one. */
  lemma OverlongExample()
    ensures Decode([128, 0], 0) == Ok((0, 2)) && Encode(0) == [0]
  {
    assert Decode([128, 0], 1) == Ok((0, 2));
  }

  // ----- The check for a whole message -----

  /** The bytes are a base 128 spelling of the number, in the fewest bytes or not. */
  predicate IsSpelling(bytes: seq<Byte>, n: nat) {
    && bytes != []
    && if |bytes| == 1 then bytes[0] < 128 && n == bytes[0]
       else bytes[0] >= 128 && n % 128 == bytes[0] % 128 && IsSpelling(bytes[1..], n / 128)
  }

  ghost predicate IsBody(bytes: seq<Byte>, field: Field) {
    match field
    case Varint(_, value) => IsSpelling(bytes, value)
    case Bytes(_, payload) =>
      exists n: nat :: n <= |bytes| && IsSpelling(bytes[..n], |payload|) && bytes[n..] == payload
    case _ => bytes == field.bytes
  }

  /** The bytes are one complete field. */
  ghost predicate IsField(bytes: seq<Byte>, field: Field) {
    WellFormed(field) && exists n: nat :: n <= |bytes| && IsSpelling(bytes[..n], Key(field)) && IsBody(bytes[n..], field)
  }

  /** The bytes are these complete fields, one after another. */
  ghost predicate IsMessage(bytes: seq<Byte>, fields: seq<Field>) {
    if fields == [] then bytes == [] else
      exists n: nat :: n <= |bytes| && IsField(bytes[..n], fields[0]) && IsMessage(bytes[n..], fields[1..])
  }

  /** The offset at which the walk stops. */
  function LastOffset(buffer: seq<Byte>, offset: nat): (last: nat)
    ensures last >= offset
    decreases |buffer| - offset
  {
    if offset >= |buffer| then offset else
      match ReadField(buffer, offset)
      case Err(_) => offset
      case Ok((_, next)) => LastOffset(buffer, next)
  }

  lemma {:induction false} ReadSpelling(bytes: seq<Byte>, n: nat, before: seq<Byte>, after: seq<Byte>)
    requires IsSpelling(bytes, n)
    ensures Decode(before + bytes + after, |before|) == Ok((n, |before| + |bytes|))
    decreases |bytes|
  {
    var buffer := before + bytes + after;
    assert buffer[|before|] == bytes[0];
    if |bytes| > 1 {
      ReadSpelling(bytes[1..], n / 128, before + [bytes[0]], after);
      assert buffer == before + [bytes[0]] + bytes[1..] + after;
    }
  }

  lemma {:induction false} SpellingRead(buffer: seq<Byte>, offset: nat)
    requires Decode(buffer, offset).Ok?
    ensures IsSpelling(buffer[offset..Decode(buffer, offset).value.1], Decode(buffer, offset).value.0)
    decreases |buffer| - offset
  {
    if buffer[offset] >= 128 {
      var (high, next) := Decode(buffer, offset + 1).value;
      SpellingRead(buffer, offset + 1);
      assert Decode(buffer, offset).value == (buffer[offset] % 128 + 128 * high, next);
      hide Decode;
      LongerSpelling(buffer[offset], buffer[offset + 1..next], high);
      assert buffer[offset..next] == [buffer[offset]] + buffer[offset + 1..next];
    }
  }

  /** A byte in front of a spelling spells the number it is the lowest digit of. */
  lemma LongerSpelling(byte: Byte, bytes: seq<Byte>, high: nat)
    requires byte >= 128 && IsSpelling(bytes, high)
    ensures IsSpelling([byte] + bytes, byte % 128 + 128 * high)
  {
    Digits(byte % 128, high);
    assert ([byte] + bytes)[1..] == bytes;
  }

  lemma Digits(low: nat, high: nat)
    requires low < 128
    ensures (low + 128 * high) % 128 == low && (low + 128 * high) / 128 == high
  {
  }

  lemma {:induction false} EncodeSpells(n: nat)
    ensures IsSpelling(Encode(n), n)
  {
    if n >= 128 {
      EncodeSpells(n / 128);
    }
  }

  /** Every encoded message is a message in this sense. */
  lemma {:induction false} EncodedIsMessage(fields: seq<Field>)
    requires forall i :: 0 <= i < |fields| ==> WellFormed(fields[i])
    ensures IsMessage(EncodeAll(fields), fields)
  {
    hide IsField, EncodeField;
    if fields != [] {
      var first, rest := EncodeField(fields[0]), EncodeAll(fields[1..]);
      EncodedIsField(fields[0]);
      EncodedIsMessage(fields[1..]);
      assert (first + rest)[..|first|] == first && (first + rest)[|first|..] == rest;
    }
  }

  lemma EncodedIsField(field: Field)
    requires WellFormed(field)
    ensures IsField(EncodeField(field), field)
  {
    hide IsSpelling, Encode;
    var key, body := Encode(Key(field)), Body(field);
    EncodeSpells(Key(field));
    assert (key + body)[..|key|] == key && (key + body)[|key|..] == body;
    if field.Varint? {
      EncodeSpells(field.value);
    } else if field.Bytes? {
      var length := Encode(|field.payload|);
      EncodeSpells(|field.payload|);
      assert body[..|length|] == length && body[|length|..] == field.payload;
    }
  }

  /** A complete field is read as that field, wherever it stands. */
  lemma ReadComplete(bytes: seq<Byte>, field: Field, before: seq<Byte>, after: seq<Byte>)
    requires IsField(bytes, field)
    ensures bytes != [] && ReadField(before + bytes + after, |before|) == Ok((field, |before| + |bytes|))
  {
    hide Decode, IsSpelling, Slice;
    var n: nat :| n <= |bytes| && IsSpelling(bytes[..n], Key(field)) && IsBody(bytes[n..], field);
    var key, body := bytes[..n], bytes[n..];
    assert bytes == key + body;
    KeyParts(field);
    ReadSpelling(key, Key(field), before, body + after);
    SpellingNotEmpty(key, Key(field));
    Associate(before, key, body, after);
    Associate([], before, key, body + after);
    assert before + bytes + after == before + key + body + after;
    match field {
      case Varint(_, value) =>
        ReadSpelling(body, value, before + key, after);
      case Bytes(_, payload) =>
        ReadPayload(body, payload, before + key, after);
      case _ =>
        SliceMiddle(before + key, field.bytes, after);
    }
  }

  lemma SpellingNotEmpty(bytes: seq<Byte>, n: nat)
    requires IsSpelling(bytes, n)
    ensures bytes != []
  {
  }

  lemma ReadPayload(body: seq<Byte>, payload: seq<Byte>, before: seq<Byte>, after: seq<Byte>)
    requires IsBody(body, Bytes(0, payload))
    ensures var read := Decode(before + body + after, |before|);
            && read.Ok? && read.value.0 == |payload| && read.value.1 + |payload| == |before| + |body|
            && Slice(before + body + after, read.value.1, read.value.1 + |payload|) == payload
  {
    hide Decode, IsSpelling, Slice;
    var n: nat :| n <= |body| && IsSpelling(body[..n], |payload|) && body[n..] == payload;
    var length := body[..n];
    assert body == length + payload;
    ReadSpelling(length, |payload|, before, payload + after);
    Associate(before, length, payload, after);
    SliceMiddle(before + length, payload, after);
    assert before + length + (payload + after) == before + body + after;
    assert before + length + payload + after == before + body + after;
  }

  /** The part of a field behind its key. */
  lemma BodyRead(buffer: seq<Byte>, offset: nat)
    requires ReadField(buffer, offset).Ok? && ReadField(buffer, offset).value.1 <= |buffer|
    ensures var (key, at) := Decode(buffer, offset).value;
            var (field, next) := ReadField(buffer, offset).value;
            at <= next && key == Key(field) && WellFormed(field) && IsBody(buffer[at..next], field)
  {
    hide Decode, IsSpelling, Encode;
    var at := Decode(buffer, offset).value.1;
    var (field, next) := ReadField(buffer, offset).value;
    if field.Varint? {
      SpellingRead(buffer, at);
    } else if field.Bytes? {
      var body := Decode(buffer, at).value.1;
      SpellingRead(buffer, at);
      assert buffer[at..next][..body - at] == buffer[at..body] && buffer[at..next][body - at..] == buffer[body..next];
    }
  }

  /** What is read without running past the end is a complete field. */
  lemma CompleteRead(buffer: seq<Byte>, offset: nat)
    requires ReadField(buffer, offset).Ok? && ReadField(buffer, offset).value.1 <= |buffer|
    ensures var (field, next) := ReadField(buffer, offset).value; IsField(buffer[offset..next], field)
  {
    BodyRead(buffer, offset);
    SpellingRead(buffer, offset);
    assert Decode(buffer, offset).Ok?;
    hide Decode, IsSpelling, IsBody, ReadField;
    var (key, at) := Decode(buffer, offset).value;
    var (field, next) := ReadField(buffer, offset).value;
    var bytes, n := buffer[offset..next], at - offset;
    assert bytes[..n] == buffer[offset..at] && bytes[n..] == buffer[at..next];
  }

  /** The missing check: a walk that finishes, and at exactly the end of the buffer, has
      read a buffer of complete fields, and every such buffer is read that way. */
  lemma WholeMessage(buffer: seq<Byte>, fields: seq<Field>)
    ensures IsMessage(buffer, fields) <==> Walk(buffer, 0) == Walked(fields, Finished) && LastOffset(buffer, 0) == |buffer|
  {
    if IsMessage(buffer, fields) {
      MessageWalked(buffer, fields, []);
      assert [] + buffer == buffer;
    }
    if Walk(buffer, 0) == Walked(fields, Finished) && LastOffset(buffer, 0) == |buffer| {
      WalkedMessage(buffer, 0);
      assert buffer[0..] == buffer;
    }
  }

  lemma {:induction false} MessageWalked(bytes: seq<Byte>, fields: seq<Field>, before: seq<Byte>)
    requires IsMessage(bytes, fields)
    ensures Walk(before + bytes, |before|) == Walked(fields, Finished)
    ensures LastOffset(before + bytes, |before|) == |before| + |bytes|
    decreases |fields|
  {
    hide ReadField, IsField;
    if fields != [] {
      var n: nat :| n <= |bytes| && IsField(bytes[..n], fields[0]) && IsMessage(bytes[n..], fields[1..]);
      assert bytes == bytes[..n] + bytes[n..];
      ReadComplete(bytes[..n], fields[0], before, bytes[n..]);
      assert before + bytes == before + bytes[..n] + bytes[n..];
      MessageWalked(bytes[n..], fields[1..], before + bytes[..n]);
      assert fields == [fields[0]] + fields[1..];
    }
  }

  lemma {:induction false} WalkedMessage(buffer: seq<Byte>, offset: nat)
    requires Walk(buffer, offset).end == Finished && LastOffset(buffer, offset) == |buffer|
    ensures offset <= |buffer| && IsMessage(buffer[offset..], Walk(buffer, offset).fields)
    decreases |buffer| - offset
  {
    hide ReadField, IsField;
    if offset < |buffer| {
      var (field, next) := ReadField(buffer, offset).value;
      WalkedMessage(buffer, next);
      CompleteRead(buffer, offset);
      var bytes, n, rest := buffer[offset..], next - offset, Walk(buffer, next).fields;
      assert bytes[..n] == buffer[offset..next] && bytes[n..] == buffer[next..];
      assert ([field] + rest)[1..] == rest;
      assert IsField(bytes[..n], field) && IsMessage(bytes[n..], rest);
    }
  }

  // ----- What else the walk does -----

  /** A field of any other wire type stops the walk right behind its key. */
  lemma {:induction false} UnsupportedField(fields: seq<Field>, number: nat, wire: nat, rest: seq<Byte>, before: seq<Byte>)
    requires forall i :: 0 <= i < |fields| ==> WellFormed(fields[i])
    requires wire == 3 || wire == 4 || wire == 6 || wire == 7
    ensures var key := Encode(8 * number + wire);
            Walk(before + EncodeAll(fields) + (key + rest), |before|)
              == Walked(fields, Unsupported(wire, |before| + |EncodeAll(fields)| + |key|))
    decreases |fields|
  {
    hide Decode, Encode, EncodeField, ReadField;
    var key := Encode(8 * number + wire);
    var tail := key + rest;
    if fields == [] {
      assert before + EncodeAll(fields) + tail == before + key + rest;
      StopsAtKey(number, wire, rest, before);
    } else {
      var first := EncodeField(fields[0]);
      FieldRoundTrip(fields[0], before, EncodeAll(fields[1..]) + tail);
      assert before + EncodeAll(fields) + tail == before + first + (EncodeAll(fields[1..]) + tail);
      UnsupportedField(fields[1..], number, wire, rest, before + first);
      assert before + first + EncodeAll(fields[1..]) + tail == before + first + (EncodeAll(fields[1..]) + tail);
      assert fields == [fields[0]] + fields[1..];
    }
  }

  lemma StopsAtKey(number: nat, wire: nat, rest: seq<Byte>, before: seq<Byte>)
    requires wire == 3 || wire == 4 || wire == 6 || wire == 7
    ensures var key := Encode(8 * number + wire);
            key != [] && ReadField(before + key + rest, |before|) == Err(Unsupported(wire, |before| + |key|))
  {
    hide Decode, Encode;
    VarintRoundTrip(8 * number + wire, before, rest);
    assert (8 * number + wire) % 8 == wire;
  }

  /** What is handed out of two runs of fields is handed out of one after the other; of a
      single field, its number and payload if it is length-delimited, and else nothing. */
  lemma {:induction false} PayloadsInOrder(a: seq<Field>, b: seq<Field>)
    ensures Payloads(a + b) == Payloads(a) + Payloads(b)
    ensures forall number: nat, payload :: Payloads([Bytes(number, payload)]) == [(number, payload)]
    ensures forall f: Field :: !f.Bytes? ==> Payloads([f]) == []
  {
    assert forall f: Field :: [f][1..] == [];
    if a == [] {
      assert a + b == b;
    } else {
      assert (a + b)[1..] == a[1..] + b;
      PayloadsInOrder(a[1..], b);
    }
  }

  /** Messages with one field of each kind, byte by byte: the number 150 in field 1, the
      text "hi" in field 2, and four and eight bytes in fields 3 and 4. */
  lemma WireExamples()
    ensures Walk([0x08, 0x96, 0x01], 0) == Walked([Varint(1, 150)], Finished)
    ensures Walk([0x12, 0x02, 0x68, 0x69], 0) == Walked([Bytes(2, [0x68, 0x69])], Finished)
    ensures Walk([0x1d, 1, 2, 3, 4], 0) == Walked([Fixed32(3, [1, 2, 3, 4])], Finished)
    ensures Walk([0x21, 1, 2, 3, 4, 5, 6, 7, 8], 0) == Walked([Fixed64(4, [1, 2, 3, 4, 5, 6, 7, 8])], Finished)
  {
    assert Decode([0x08, 0x96, 0x01], 2) == Ok((1, 3));
    assert Decode([0x08, 0x96, 0x01], 1) == Ok((150, 3));
    assert Slice([0x12, 0x02, 0x68, 0x69], 2, 4) == [0x68, 0x69];
    assert Slice([0x1d, 1, 2, 3, 4], 1, 5) == [1, 2, 3, 4];
    assert Slice([0x21, 1, 2, 3, 4, 5, 6, 7, 8], 1, 9) == [1, 2, 3, 4, 5, 6, 7, 8];
    hide Slice;
  }
}
